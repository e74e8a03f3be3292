/** The string operations several programs of the repository share. */
module Text {

  /** strings.ToLower, for ASCII. */
  function LowerChar(c: char): char { if 'A' <= c <= 'Z' then ((c as int) + 32) as char else c }
  function Lower(s: string): (r: string)
    ensures |r| == |s|
  {
    seq(|s|, i requires 0 <= i < |s| => LowerChar(s[i]))
  }

  const CAPITALS := "ABCDEFGHIJKLMNOPQRSTUVWXYZ"
  const SMALL := "abcdefghijklmnopqrstuvwxyz"

  /** Every capital becomes the small letter at its place in the alphabet; nothing else changes. */
  lemma LowerIs(s: string, i: nat)
    requires i < |s|
    ensures forall k | 0 <= k < 26 :: s[i] == CAPITALS[k] ==> Lower(s)[i] == SMALL[k]
    ensures s[i] !in CAPITALS ==> Lower(s)[i] == s[i]
  {
    if 'A' <= s[i] <= 'Z' {
      assert CAPITALS[(s[i] as int) - 65] == s[i];
    }
  }

  predicate HasPrefix(s: string, prefix: string) { prefix <= s }

  // ----- Trimming, for any notion of white space -----

  function RStrip(space: char -> bool, s: string): string {
    if s != "" && space(s[|s| - 1]) then RStrip(space, s[..|s| - 1]) else s
  }

  function LStrip(space: char -> bool, s: string): string {
    if s != "" && space(s[0]) then LStrip(space, s[1..]) else s
  }

  function Trim(space: char -> bool, s: string): string { LStrip(space, RStrip(space, s)) }

  predicate AllSpace(space: char -> bool, s: string) {
    forall i | 0 <= i < |s| :: space(s[i])
  }

  lemma AllSpaceBoth(space: char -> bool, a: string, b: string)
    ensures AllSpace(space, a + b) <==> AllSpace(space, a) && AllSpace(space, b)
  {
    if AllSpace(space, a + b) {
      forall i | 0 <= i < |b| ensures space(b[i]) { assert (a + b)[|a| + i] == b[i]; }
      forall i | 0 <= i < |a| ensures space(a[i]) { assert (a + b)[i] == a[i]; }
    }
  }

  lemma {:induction false} RStripOver(space: char -> bool, s: string, r: string)
    ensures RStrip(space, s + r) == if AllSpace(space, r) then RStrip(space, s) else s + RStrip(space, r)
    ensures RStrip(space, r) == "" <==> AllSpace(space, r)
    ensures RStrip(space, r) != "" ==> !AllSpace(space, RStrip(space, r))
  {
    if r == "" {
      assert s + r == s;
    } else {
      var n := |r| - 1;
      assert (s + r)[..|s + r| - 1] == s + r[..n] && r == r[..n] + [r[n]];
      AllSpaceBoth(space, r[..n], [r[n]]);
      RStripOver(space, s, r[..n]);
    }
  }

  lemma {:induction false} LStripOver(space: char -> bool, s: string, r: string)
    ensures LStrip(space, s + r) == if AllSpace(space, s) then LStrip(space, r) else LStrip(space, s) + r
    ensures LStrip(space, s) == "" <==> AllSpace(space, s)
    ensures LStrip(space, s) != "" ==> !AllSpace(space, LStrip(space, s))
  {
    if s == "" {
      assert s + r == r;
    } else {
      assert (s + r)[1..] == s[1..] + r && s == [s[0]] + s[1..];
      AllSpaceBoth(space, [s[0]], s[1..]);
      LStripOver(space, s[1..], r);
    }
  }

  /** What is trimmed away is white space. */
  lemma TrimIsBlankIff(space: char -> bool, s: string)
    ensures Trim(space, s) == "" <==> AllSpace(space, s)
    ensures Trim(space, s) != "" ==> !AllSpace(space, Trim(space, s))
  {
    assert "" + s == s;
    RStripOver(space, "", s);
    LStripOver(space, RStrip(space, s), "");
  }

  lemma {:induction false} RStripIsPrefix(space: char -> bool, s: string)
    ensures RStrip(space, s) <= s
  {
    if s != "" && space(s[|s| - 1]) { RStripIsPrefix(space, s[..|s| - 1]); }
  }

  /** What stays when white space is taken off the end. */
  lemma {:induction false} RStripIs(space: char -> bool, s: string) returns (off: string)
    ensures s == RStrip(space, s) + off && AllSpace(space, off)
    ensures RStrip(space, s) != "" ==> !space(RStrip(space, s)[|RStrip(space, s)| - 1])
  {
    if s != "" && space(s[|s| - 1]) {
      off := RStripIs(space, s[..|s| - 1]);
      AllSpaceBoth(space, off, [s[|s| - 1]]);
      off := off + [s[|s| - 1]];
    } else {
      off := "";
    }
  }

  lemma {:induction false} LStripIs(space: char -> bool, s: string) returns (off: string)
    ensures s == off + LStrip(space, s) && AllSpace(space, off)
    ensures LStrip(space, s) != "" ==> !space(LStrip(space, s)[0])
  {
    if s != "" && space(s[0]) {
      off := LStripIs(space, s[1..]);
      AllSpaceBoth(space, [s[0]], off);
      off := [s[0]] + off;
    } else {
      off := "";
    }
  }

  /** What is stripped off the end: all the white space there is, and nothing else. */
  lemma RStripUnique(space: char -> bool, kept: string, off: string)
    requires AllSpace(space, off) && (kept != "" ==> !space(kept[|kept| - 1]))
    ensures RStrip(space, kept + off) == kept
  {
    RStripOver(space, kept, off);
  }

  /** Trimming takes all the white space off both ends, and nothing else. */
  lemma TrimIs(space: char -> bool, before: string, kept: string, after: string)
    requires AllSpace(space, before) && AllSpace(space, after)
    requires kept != "" ==> !space(kept[0]) && !space(kept[|kept| - 1])
    ensures Trim(space, before + kept + after) == kept
  {
    if kept == "" {
      assert before + kept + after == before + after;
      AllSpaceBoth(space, before, after);
      TrimIsBlankIff(space, before + after);
    } else {
      assert before + kept + after == (before + kept) + after;
      RStripUnique(space, before + kept, after);
      LStripOver(space, before, kept);
    }
  }

  /** Appending shows after trimming exactly when more than white space is appended. */
  lemma TrimOver(space: char -> bool, s: string, r: string)
    ensures Trim(space, s + r) == Trim(space, s) <==> AllSpace(space, r)
  {
    RStripOver(space, s, r);
    if !AllSpace(space, r) {
      var kept := RStrip(space, s);
      LStripOver(space, s, RStrip(space, r));
      TrimIsBlankIff(space, s);
      LStripOver(space, RStrip(space, r), "");
      if !AllSpace(space, s) {
        RStripIsPrefix(space, s);
        assert s == kept + s[|kept|..];
        LStripOver(space, kept, s[|kept|..]);
        assert |Trim(space, s)| <= |LStrip(space, s)|;
      }
    }
  }

  // ----- Joining and splitting -----

  function Join(parts: seq<string>, sep: string): string {
    if parts == [] then ""
    else if |parts| == 1 then parts[0]
    else parts[0] + sep + Join(parts[1..], sep)
  }

  lemma {:induction false} JoinBoth(a: seq<string>, b: seq<string>, sep: string)
    requires a != [] && b != []
    ensures Join(a + b, sep) == Join(a, sep) + sep + Join(b, sep)
  {
    assert (a + b)[0] == a[0] && (a + b)[1..] == a[1..] + b;
    if |a| == 1 {
      assert a[1..] + b == b;
    } else {
      JoinBoth(a[1..], b, sep);
      assert Join(a + b, sep) == a[0] + sep + (Join(a[1..], sep) + sep + Join(b, sep));
    }
  }

  predicate AllBlank(space: char -> bool, parts: seq<string>) {
    forall i | 0 <= i < |parts| :: AllSpace(space, parts[i])
  }

  /** A join is blank when all its parts are, and, with a blank separator, only then. */
  lemma {:induction false} JoinIsBlankIff(space: char -> bool, parts: seq<string>, sep: string)
    ensures AllSpace(space, Join(parts, sep)) ==> AllBlank(space, parts)
    ensures AllSpace(space, sep) && AllBlank(space, parts) ==> AllSpace(space, Join(parts, sep))
  {
    if |parts| > 1 {
      JoinIsBlankIff(space, parts[1..], sep);
      AllSpaceBoth(space, parts[0] + sep, Join(parts[1..], sep));
      AllSpaceBoth(space, parts[0], sep);
      assert parts == [parts[0]] + parts[1..];
    }
  }

  /** The pieces between the separators (JoinUndoesSplit, SplitUndoesJoin). */
  function Split(s: string, c: char): (parts: seq<string>)
    ensures parts != []
  {
    if s == "" then [""]
    else
      var rest := Split(s[1..], c);
      if s[0] == c then [""] + rest else [[s[0]] + rest[0]] + rest[1..]
  }

  predicate Free(parts: seq<string>, c: char) {
    forall i | 0 <= i < |parts| :: c !in parts[i]
  }

  lemma {:induction false} JoinUndoesSplit(s: string, c: char)
    ensures Join(Split(s, c), [c]) == s && Free(Split(s, c), c)
  {
    if s != "" {
      JoinUndoesSplit(s[1..], c);
      var rest := Split(s[1..], c);
      assert s == [s[0]] + s[1..];
      if s[0] == c {
        assert ([""] + rest)[1..] == rest;
      } else {
        var parts := [[s[0]] + rest[0]] + rest[1..];
        assert parts[1..] == rest[1..];
      }
    }
  }

  lemma {:induction false} SplitPiece(piece: string, rest: string, c: char)
    requires c !in piece
    ensures Split(piece, c) == [piece]
    ensures Split(piece + [c] + rest, c) == [piece] + Split(rest, c)
  {
    if piece == "" {
      assert ([c] + rest)[1..] == rest;
      assert piece + [c] + rest == [c] + rest;
    } else {
      SplitPiece(piece[1..], rest, c);
      assert piece == [piece[0]] + piece[1..];
      assert (piece + [c] + rest)[1..] == piece[1..] + [c] + rest;
    }
  }

  lemma {:induction false} SplitUndoesJoin(parts: seq<string>, c: char)
    requires parts != [] && Free(parts, c)
    ensures Split(Join(parts, [c]), c) == parts
  {
    if |parts| == 1 {
      SplitPiece(parts[0], "", c);
    } else {
      SplitUndoesJoin(parts[1..], c);
      SplitPiece(parts[0], Join(parts[1..], [c]), c);
      assert parts == [parts[0]] + parts[1..];
    }
  }

  lemma SplitOne(next: char, c: char)
    ensures Split([next], c) == if next == c then ["", ""] else [[next]]
  {
    assert [next][1..] == "";
    assert [next] + "" == [next] && [[next]] + [""][1..] == [[next]];
  }

  function Grown(parts: seq<string>, next: char, c: char): seq<string>
    requires parts != []
  {
    if next == c then parts + [""] else parts[..|parts| - 1] + [parts[|parts| - 1] + [next]]
  }

  /** The function of the rest of a string that Split applies to its first character. */
  function Prepended(first: char, rest: seq<string>, c: char): seq<string>
    requires rest != []
  {
    if first == c then [""] + rest else [[first] + rest[0]] + rest[1..]
  }

  lemma PrependGrown(first: char, rest: seq<string>, next: char, c: char)
    requires rest != []
    ensures Prepended(first, Grown(rest, next, c), c) == Grown(Prepended(first, rest, c), next, c)
  {
    var grown := Grown(rest, next, c);
    if first == c {
      assert Prepended(first, grown, c) == [""] + grown;
    } else if next == c {
      assert grown[0] == rest[0] && grown[1..] == rest[1..] + [""];
    } else if |rest| == 1 {
      assert grown == [rest[0] + [next]];
      assert [first] + (rest[0] + [next]) == [first] + rest[0] + [next];
    } else {
      assert grown[0] == rest[0];
    }
  }

  /** One more character ends a piece or makes the last one longer. */
  lemma {:induction false} SplitOneMore(s: string, next: char, c: char)
    ensures Split(s + [next], c) == Grown(Split(s, c), next, c)
  {
    if s == "" {
      assert s + [next] == [next];
      SplitOne(next, c);
      assert "" + [next] == [next] && [""][..0] == [];
    } else {
      SplitOneMore(s[1..], next, c);
      var longer := s + [next];
      assert longer[1..] == s[1..] + [next] && longer[0] == s[0];
      assert Split(longer, c) == Prepended(s[0], Split(longer[1..], c), c);
      assert Split(s, c) == Prepended(s[0], Split(s[1..], c), c);
      hide Split, Grown, Prepended;
      PrependGrown(s[0], Split(s[1..], c), next, c);
    }
  }
}
