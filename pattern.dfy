/**
 * The anchored regular expressions of the source, which are all a fixed
 * sequence of character classes each repeated an exact number of times:
 * `^\d{4}-\d{2}-\d{2}$` (the date format) and `^#[0-9a-fA-F]{6}$` (a hex
 * colour). With no alternation and no variable repetition, matching is a
 * single left-to-right pass.
 */
module Pattern {
  import Digits

  datatype CharClass = AnyDigit | AnyHexDigit | Literal(c: char)

  /** One class repeated exactly `count` times, as `\d{4}` or `-`. */
  datatype Piece = Piece(cls: CharClass, count: nat)

  predicate IsHexDigit(c: char) {
    Digits.IsDigit(c) || 'a' <= c <= 'f' || 'A' <= c <= 'F'
  }

  /** JavaScript's `\d` without the `u` flag is the ten ASCII digits. */
  predicate InClass(cls: CharClass, c: char) {
    match cls
    case AnyDigit => Digits.IsDigit(c)
    case AnyHexDigit => IsHexDigit(c)
    case Literal(l) => c == l
  }

  predicate AllIn(cls: CharClass, s: string) {
    forall i :: 0 <= i < |s| ==> InClass(cls, s[i])
  }

  /** `s` matches the whole pattern, from `^` to `$`. */
  predicate Matches(p: seq<Piece>, s: string)
    decreases |p|
  {
    if p == [] then s == []
    else p[0].count <= |s| && AllIn(p[0].cls, s[..p[0].count]) && Matches(p[1..], s[p[0].count..])
  }

  function Width(p: seq<Piece>): nat {
    if p == [] then 0 else p[0].count + Width(p[1..])
  }

  /** A match always consumes exactly the pattern's width. */
  lemma {:induction false} MatchLength(p: seq<Piece>, s: string)
    requires Matches(p, s)
    ensures |s| == Width(p)
  {
    if p != [] {
      MatchLength(p[1..], s[p[0].count..]);
    }
  }

  /** `^\d{4}-\d{2}-\d{2}$` */
  const DatePattern: seq<Piece> :=
    [Piece(AnyDigit, 4), Piece(Literal('-'), 1), Piece(AnyDigit, 2), Piece(Literal('-'), 1), Piece(AnyDigit, 2)]

  /** `^#[0-9a-fA-F]{6}$` */
  const HexColorPattern: seq<Piece> := [Piece(Literal('#'), 1), Piece(AnyHexDigit, 6)]

  /** The shape the date regex describes, position by position. */
  predicate DateShaped(s: string) {
    && |s| == 10
    && s[4] == '-' && s[7] == '-'
    && (forall i :: 0 <= i < 10 && i != 4 && i != 7 ==> Digits.IsDigit(s[i]))
  }

  lemma Unfold(p: seq<Piece>, s: string)
    requires p != []
    ensures Matches(p, s) <==>
      p[0].count <= |s| && AllIn(p[0].cls, s[..p[0].count]) && Matches(p[1..], s[p[0].count..])
  {
  }

  /** A string matches the date regex iff it has length 10, `-` at indices 4 and 7 and digits elsewhere. */
  lemma DatePatternShape(s: string)
    ensures Matches(DatePattern, s) <==> DateShaped(s)
  {
    var p := DatePattern;
    Unfold(p, s);
    if 4 <= |s| {
      var s1 := s[4..];
      Unfold(p[1..], s1);
      if 1 <= |s1| {
        var s2 := s1[1..];
        Unfold(p[2..], s2);
        assert p[1..][1..] == p[2..];
        if 2 <= |s2| {
          var s3 := s2[2..];
          Unfold(p[3..], s3);
          assert p[2..][1..] == p[3..];
          if 1 <= |s3| {
            var s4 := s3[1..];
            Unfold(p[4..], s4);
            assert p[3..][1..] == p[4..];
            assert p[4..][1..] == [];
            if 2 <= |s4| {
              assert Matches([], s4[2..]) <==> |s| == 10;
              if |s| == 10 {
                assert s[..4] == s[0..4];
                assert forall i :: 0 <= i < 4 ==> s[..4][i] == s[i];
                assert forall i :: 0 <= i < 2 ==> s2[..2][i] == s[5 + i];
                assert forall i :: 0 <= i < 2 ==> s4[..2][i] == s[8 + i];
                assert s1[..1][0] == s[4] && s3[..1][0] == s[7];
              }
            }
          }
        }
      }
    }
  }

  /** The six hex digits after the `#`. */
  lemma HexDigitsShape(t: string)
    ensures Matches([Piece(AnyHexDigit, 6)], t) <==> |t| == 6 && AllIn(AnyHexDigit, t)
  {
    var p := [Piece(AnyHexDigit, 6)];
    Unfold(p, t);
    assert p[1..] == [];
    if 6 <= |t| {
      assert Matches([], t[6..]) <==> |t| == 6;
      assert |t| == 6 ==> t[..6] == t;
    }
  }

  /** A string matches the colour regex iff it is `#` followed by exactly six hex digits. */
  lemma HexColorPatternShape(s: string)
    ensures Matches(HexColorPattern, s) <==>
      |s| == 7 && s[0] == '#' && (forall i :: 1 <= i < 7 ==> IsHexDigit(s[i]))
  {
    var p := HexColorPattern;
    Unfold(p, s);
    assert p[1..] == [Piece(AnyHexDigit, 6)];
    if 1 <= |s| {
      var t := s[1..];
      HexDigitsShape(t);
      assert AllIn(Literal('#'), s[..1]) <==> s[0] == '#' by {
        assert s[..1][0] == s[0];
      }
      assert AllIn(AnyHexDigit, t) <==> forall i :: 1 <= i < |s| ==> IsHexDigit(s[i]) by {
        assert forall i :: 0 <= i < |t| ==> t[i] == s[i + 1];
        assert forall i :: 1 <= i < |s| ==> s[i] == t[i - 1];
      }
    }
  }
}
