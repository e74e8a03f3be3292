/** Giving bare opening code fences a language tag (scripts/fix-bare-fences.py). */
module CodeFences {
  import opened Text

  const FENCE := "```"
  const TAGGED_FENCE := "```text\n"

  /** Which characters Python's rstrip and \w recognise. */
  datatype Chars = Chars(space: char -> bool, word: char -> bool)

  /** All the program relies on; true of the Unicode classes. */
  predicate Sane(cc: Chars) {
    cc.space('\n') && !cc.space('`') && !cc.space('t') && cc.word('t') && !cc.word('`')
  }

  // ----- One line -----

  datatype Kind = Bare | Tagged | Plain

  function Classify(cc: Chars, line: string): Kind {
    var stripped := RStrip(cc.space, line);
    if stripped == FENCE then Bare
    else if |stripped| > 3 && stripped[..3] == FENCE && cc.word(stripped[3]) then Tagged
    else Plain
  }

  function After(inBlock: bool, kind: Kind): bool {
    match kind
    case Bare => !inBlock
    case Tagged => true
    case Plain => inBlock
  }

  /** A line without the white space at its end: three backticks alone are bare, three backticks and a
      word character after them tagged, anything else is plain. */
  lemma ClassifyIs(cc: Chars, kept: string, off: string)
    requires AllSpace(cc.space, off) && (kept != "" ==> !cc.space(kept[|kept| - 1]))
    ensures Classify(cc, kept + off) == Bare <==> |kept| == 3 && kept[0] == kept[1] == kept[2] == '`'
    ensures Classify(cc, kept + off) == Tagged
       <==> |kept| > 3 && kept[0] == kept[1] == kept[2] == '`' && cc.word(kept[3])
  {
    RStripUnique(cc.space, kept, off);
    assert |kept| >= 3 ==> (kept[..3] == FENCE <==> kept[0] == kept[1] == kept[2] == '`');
  }

  /** Any tag that begins with a word character makes a fence tagged. */
  lemma AnyTag(cc: Chars, tag: string)
    requires Sane(cc) && tag != "" && cc.word(tag[0]) && !cc.space(tag[|tag| - 1])
    ensures Classify(cc, "```" + tag + "\n") == Tagged
  {
    assert AllSpace(cc.space, "\n") && ("```" + tag)[|tag| + 2] == tag[|tag| - 1] && ("```" + tag)[3] == tag[0];
    ClassifyIs(cc, "```" + tag, "\n");
  }

  lemma TaggedFence(cc: Chars)
    requires Sane(cc)
    ensures Classify(cc, TAGGED_FENCE) == Tagged
  {
    var n := |TAGGED_FENCE|;
    assert TAGGED_FENCE[n - 1] == '\n' && TAGGED_FENCE[..n - 1] == "```text";
    assert RStrip(cc.space, "```text") == "```text";
    assert "```text"[..3] == FENCE;
  }

  // ----- The lines of a file -----

  /** Whether the pass is inside a block when it comes to line k. */
  function InBlockAt(cc: Chars, lines: seq<string>, k: nat): bool
    requires k <= |lines|
  {
    if k == 0 then false else After(InBlockAt(cc, lines, k - 1), Classify(cc, lines[k - 1]))
  }

  /** Line i is a bare fence that the pass takes for an opening one. */
  predicate Offends(cc: Chars, lines: seq<string>, i: nat)
    requires i < |lines|
  {
    Classify(cc, lines[i]) == Bare && !InBlockAt(cc, lines, i)
  }

  predicate CleanUpTo(cc: Chars, lines: seq<string>, k: nat)
    requires k <= |lines|
  {
    forall i | 0 <= i < k :: !Offends(cc, lines, i)
  }

  predicate Clean(cc: Chars, lines: seq<string>) { CleanUpTo(cc, lines, |lines|) }

  function FixLine(cc: Chars, lines: seq<string>, i: nat): string
    requires i < |lines|
  {
    if Offends(cc, lines, i) then TAGGED_FENCE else lines[i]
  }

  ghost predicate FixedUpTo(cc: Chars, lines: seq<string>, fixed: seq<string>, k: nat)
    requires k <= |lines|
  {
    |fixed| == k && forall i | 0 <= i < k :: fixed[i] == FixLine(cc, lines, i)
  }

  /** What the pass is for: only the offending lines are rewritten, each in its place. */
  ghost predicate IsFix(cc: Chars, lines: seq<string>, fixed: seq<string>) { FixedUpTo(cc, lines, fixed, |lines|) }

  lemma OneMoreLine(cc: Chars, lines: seq<string>, fixed: seq<string>, i: nat)
    requires i < |lines| && FixedUpTo(cc, lines, fixed, i)
    ensures FixedUpTo(cc, lines, fixed + [FixLine(cc, lines, i)], i + 1)
    ensures CleanUpTo(cc, lines, i + 1) <==> CleanUpTo(cc, lines, i) && !Offends(cc, lines, i)
  {
    hide Offends, FixLine;
  }

  method FixLines(cc: Chars, lines: seq<string>) returns (newLines: seq<string>, changed: bool)
    ensures IsFix(cc, lines, newLines)
    ensures changed <==> !Clean(cc, lines)
  {
    var inBlock := false;
    newLines, changed := [], false;
    for i := 0 to |lines|
      invariant inBlock == InBlockAt(cc, lines, i)
      invariant FixedUpTo(cc, lines, newLines, i)
      invariant changed <==> !CleanUpTo(cc, lines, i)
    {
      OneMoreLine(cc, lines, newLines, i);
      hide RStrip, FixedUpTo, CleanUpTo;
      var stripped := RStrip(cc.space, lines[i]);
      if stripped == FENCE {
        if !inBlock {
          newLines, inBlock, changed := newLines + [TAGGED_FENCE], true, true;
        } else {
          newLines, inBlock := newLines + [lines[i]], false;
        }
      } else if |stripped| > 3 && stripped[..3] == FENCE && cc.word(stripped[3]) {
        newLines, inBlock := newLines + [lines[i]], true;
      } else {
        newLines := newLines + [lines[i]];
      }
    }
  }

  /** A second pass is in the same state at every line. */
  lemma {:induction false} SameStates(cc: Chars, lines: seq<string>, fixed: seq<string>, k: nat)
    requires Sane(cc) && IsFix(cc, lines, fixed) && k <= |lines|
    ensures InBlockAt(cc, fixed, k) == InBlockAt(cc, lines, k)
  {
    if k > 0 {
      SameStates(cc, lines, fixed, k - 1);
      TaggedFence(cc);
    }
  }

  /** After a pass every fence it takes for an opening one has a tag, so a second pass changes nothing. */
  lemma FixedIsClean(cc: Chars, lines: seq<string>, fixed: seq<string>)
    requires Sane(cc) && IsFix(cc, lines, fixed)
    ensures Clean(cc, fixed)
    ensures forall again | IsFix(cc, fixed, again) :: again == fixed
  {
    TaggedFence(cc);
    forall i | 0 <= i < |fixed| ensures !Offends(cc, fixed, i) {
      SameStates(cc, lines, fixed, i);
    }
  }

  /** A clean file is a fixed point, and no other is. */
  lemma FixpointIffClean(cc: Chars, lines: seq<string>, fixed: seq<string>)
    requires Sane(cc) && IsFix(cc, lines, fixed)
    ensures fixed == lines <==> Clean(cc, lines)
  {
    if fixed == lines { FixedIsClean(cc, lines, fixed); }
  }

  // ----- Blocks as they are read, and what the pass takes for one -----

  predicate StartsWithFence(cc: Chars, line: string) { HasPrefix(RStrip(cc.space, line), FENCE) }

  /** Whether line k stands in a block: any line that begins with three backticks opens one, and a
      bare fence closes it. */
  function OpenAt(cc: Chars, lines: seq<string>, k: nat): bool
    requires k <= |lines|
  {
    k > 0 &&
    if OpenAt(cc, lines, k - 1) then Classify(cc, lines[k - 1]) != Bare else StartsWithFence(cc, lines[k - 1])
  }

  /** Line k opens a block and the pass does not see it, because no word follows the backticks. */
  predicate UnseenOpening(cc: Chars, lines: seq<string>, k: nat)
    requires k < |lines|
  {
    !OpenAt(cc, lines, k) && StartsWithFence(cc, lines[k]) && Classify(cc, lines[k]) == Plain
  }

  predicate PlainBetween(cc: Chars, lines: seq<string>, k: int, j: int)
    requires j <= |lines|
  {
    forall i | 0 <= k < i < j :: Classify(cc, lines[i]) == Plain
  }

  /** The first fence after line k that the pass sees is bare. */
  ghost predicate BareComesNext(cc: Chars, lines: seq<string>, k: nat) {
    exists j: nat | k < j < |lines| :: Classify(cc, lines[j]) == Bare && PlainBetween(cc, lines, k, j)
  }

  /** No rewritten line closes a block. */
  ghost predicate RewritesOpeningsOnly(cc: Chars, lines: seq<string>, n: nat)
    requires n <= |lines|
  {
    forall i | 0 <= i < n && Offends(cc, lines, i) :: !OpenAt(cc, lines, i)
  }

  /** Some line before k opened a block the pass has not seen, and no fence it sees came since. */
  ghost predicate Unseen(cc: Chars, lines: seq<string>, k: nat)
    requires k <= |lines|
  {
    exists m: nat | m < k :: UnseenOpening(cc, lines, m) && PlainBetween(cc, lines, m, k)
  }

  lemma KindStartsWithFence(cc: Chars, line: string)
    ensures Classify(cc, line) != Plain ==> StartsWithFence(cc, line)
  {
  }

  /** While it rewrites openings only, the pass goes by the blocks, but for one it has not seen. */
  lemma {:induction false} StatesAgree(cc: Chars, lines: seq<string>, k: nat)
    requires k <= |lines| && RewritesOpeningsOnly(cc, lines, k)
    ensures InBlockAt(cc, lines, k) == OpenAt(cc, lines, k) || (OpenAt(cc, lines, k) && Unseen(cc, lines, k))
  {
    if k > 0 {
      StatesAgree(cc, lines, k - 1);
      KindStartsWithFence(cc, lines[k - 1]);
      hide Classify, StartsWithFence;
      assert Offends(cc, lines, k - 1) ==> !OpenAt(cc, lines, k - 1);
      if InBlockAt(cc, lines, k) != OpenAt(cc, lines, k) {
        if Unseen(cc, lines, k - 1) && OpenAt(cc, lines, k - 1) && !InBlockAt(cc, lines, k - 1) {
          var m: nat :| m < k - 1 && UnseenOpening(cc, lines, m) && PlainBetween(cc, lines, m, k - 1);
          assert PlainBetween(cc, lines, m, k);
        } else {
          assert UnseenOpening(cc, lines, k - 1) && PlainBetween(cc, lines, k - 1, k);
        }
      }
    }
  }

  /** A block the pass has not seen stays unseen until the next fence that it sees. */
  lemma {:induction false} StaysUnseen(cc: Chars, lines: seq<string>, k: nat, j: nat)
    requires k < j <= |lines| && PlainBetween(cc, lines, k, j)
    requires UnseenOpening(cc, lines, k) && !InBlockAt(cc, lines, k)
    ensures OpenAt(cc, lines, j) && !InBlockAt(cc, lines, j)
  {
    hide Classify, StartsWithFence;
    if k < j - 1 { StaysUnseen(cc, lines, k, j - 1); }
  }

  lemma ClosesUnseen(cc: Chars, lines: seq<string>, k: nat, j: nat)
    requires k < j < |lines| && PlainBetween(cc, lines, k, j)
    requires UnseenOpening(cc, lines, k) && !InBlockAt(cc, lines, k)
    requires Classify(cc, lines[j]) == Bare
    ensures Offends(cc, lines, j) && OpenAt(cc, lines, j)
  {
    StaysUnseen(cc, lines, k, j);
  }

  lemma BareAfterUnseen(cc: Chars, lines: seq<string>, j: nat) returns (k: nat)
    requires j < |lines| && Unseen(cc, lines, j) && Classify(cc, lines[j]) == Bare
    ensures k < j && UnseenOpening(cc, lines, k) && BareComesNext(cc, lines, k)
  {
    hide Classify, StartsWithFence;
    k :| k < j && UnseenOpening(cc, lines, k) && PlainBetween(cc, lines, k, j);
  }

  lemma OpeningsOnlyMeans(cc: Chars, lines: seq<string>, k: nat)
    requires RewritesOpeningsOnly(cc, lines, |lines|) && k < |lines| && UnseenOpening(cc, lines, k)
    ensures !BareComesNext(cc, lines, k)
  {
    StatesAgree(cc, lines, k);
    hide Classify, StartsWithFence;
    forall j: nat | k < j < |lines| && Classify(cc, lines[j]) == Bare ensures !PlainBetween(cc, lines, k, j) {
      if PlainBetween(cc, lines, k, j) { ClosesUnseen(cc, lines, k, j); }
    }
  }

  lemma {:induction false} OpeningsOnlyUpTo(cc: Chars, lines: seq<string>, n: nat)
    requires n <= |lines|
    requires forall k: nat | k < |lines| && UnseenOpening(cc, lines, k) :: !BareComesNext(cc, lines, k)
    ensures RewritesOpeningsOnly(cc, lines, n)
  {
    if n > 0 {
      OpeningsOnlyUpTo(cc, lines, n - 1);
      StatesAgree(cc, lines, n - 1);
      hide Classify, StartsWithFence;
      if Offends(cc, lines, n - 1) && OpenAt(cc, lines, n - 1) {
        var k := BareAfterUnseen(cc, lines, n - 1);
      }
    }
  }

  /** No closing fence is rewritten, and then exactly the bare fences that open a block are, for just
      the files in which the first fence the pass sees after an opening it does not see is no bare
      one. */
  lemma RewritesTheOpeningsIff(cc: Chars, lines: seq<string>)
    ensures (forall i | 0 <= i < |lines| :: Offends(cc, lines, i) ==> !OpenAt(cc, lines, i))
       <==> forall k | 0 <= k < |lines| && UnseenOpening(cc, lines, k) :: !BareComesNext(cc, lines, k)
    ensures (forall i | 0 <= i < |lines| ::
               Offends(cc, lines, i) <==> Classify(cc, lines[i]) == Bare && !OpenAt(cc, lines, i))
       <==> forall k | 0 <= k < |lines| && UnseenOpening(cc, lines, k) :: !BareComesNext(cc, lines, k)
  {
    hide Classify, StartsWithFence, OpenAt, InBlockAt, UnseenOpening, BareComesNext;
    if RewritesOpeningsOnly(cc, lines, |lines|) {
      forall k: nat | k < |lines| && UnseenOpening(cc, lines, k) ensures !BareComesNext(cc, lines, k) {
        OpeningsOnlyMeans(cc, lines, k);
      }
    }
    if forall k: nat | k < |lines| && UnseenOpening(cc, lines, k) :: !BareComesNext(cc, lines, k) {
      OpeningsOnlyUpTo(cc, lines, |lines|);
      forall i | 0 <= i < |lines|
        ensures Offends(cc, lines, i) <==> Classify(cc, lines[i]) == Bare && !OpenAt(cc, lines, i)
      {
        OpeningsOnlyUpTo(cc, lines, i);
        StatesAgree(cc, lines, i);
      }
    }
  }

  const CHUNK := ["```{r}\n", "x\n", "```\n"]

  /** The closing fence of such a block is given the tag. */
  lemma ClosingFenceIsRewritten(cc: Chars, fixed: seq<string>)
    requires Sane(cc) && !cc.space('}') && !cc.word('{') && IsFix(cc, CHUNK, fixed)
    ensures OpenAt(cc, CHUNK, 2) && fixed == ["```{r}\n", "x\n", "```text\n"]
  {
    var opening, text, closing := CHUNK[0], CHUNK[1], CHUNK[2];
    assert opening[..6] == "```{r}" && RStrip(cc.space, opening) == RStrip(cc.space, "```{r}") == "```{r}";
    assert "```{r}"[..3] == FENCE && Classify(cc, opening) == Plain && StartsWithFence(cc, opening);
    assert |RStrip(cc.space, text)| <= 2 && Classify(cc, text) == Plain;
    assert closing[..3] == "```" && RStrip(cc.space, closing) == RStrip(cc.space, "```") == "```";
    assert Classify(cc, closing) == Bare;
    hide Classify, StartsWithFence;
    assert OpenAt(cc, CHUNK, 1) && OpenAt(cc, CHUNK, 2);
    assert !InBlockAt(cc, CHUNK, 0) && !InBlockAt(cc, CHUNK, 1) && !InBlockAt(cc, CHUNK, 2);
  }

  // ----- The text of a file -----

  /** Python's text mode: every line ending is read as \n. */
  function Universal(text: string): string {
    if text == "" then ""
    else if text[0] == '\r' then
      (if |text| > 1 && text[1] == '\n' then Universal(text[1..]) else "\n" + Universal(text[1..]))
    else [text[0]] + Universal(text[1..])
  }

  /** A line holds no \n before its last character. */
  predicate OneLine(s: string) {
    s != "" && forall k | 0 <= k < |s| - 1 :: s[k] != '\n'
  }

  predicate Ended(s: string) { s != "" && s[|s| - 1] == '\n' }

  /** The length of the first line, with its end. */
  function LineEnd(text: string): (n: nat)
    requires text != ""
    ensures 0 < n <= |text|
  {
    if text[0] == '\n' || |text| == 1 then 1 else LineEnd(text[1..]) + 1
  }

  /** readlines */
  function ReadLines(text: string): seq<string> {
    if text == "" then [] else [text[..LineEnd(text)]] + ReadLines(text[LineEnd(text)..])
  }

  /** writelines */
  function WriteLines(lines: seq<string>): string {
    if lines == [] then "" else lines[0] + WriteLines(lines[1..])
  }

  predicate Lines(lines: seq<string>) {
    forall i | 0 <= i < |lines| :: OneLine(lines[i]) && (i < |lines| - 1 ==> Ended(lines[i]))
  }

  /** Where the first line ends: at the only end that leaves one line before it. */
  lemma {:induction false} LineEndIff(text: string, n: nat)
    requires 0 < n <= |text|
    ensures LineEnd(text) == n <==> OneLine(text[..n]) && (n < |text| ==> Ended(text[..n]))
  {
    var first := text[..n];
    assert first[0] == text[0];
    if |text| > 1 && text[0] != '\n' && n > 1 {
      LineEndIff(text[1..], n - 1);
      OneLonger(text[0], text[1..][..n - 1]);
      assert first == [text[0]] + text[1..][..n - 1];
      hide OneLine, Ended;
    }
  }

  lemma OneLonger(c: char, s: string)
    requires c != '\n' && s != ""
    ensures OneLine([c] + s) <==> OneLine(s)
    ensures Ended([c] + s) <==> Ended(s)
  {
    var longer := [c] + s;
    assert forall k | 0 <= k < |s| :: s[k] == longer[k + 1];
    assert forall k | 0 < k < |longer| :: longer[k] == s[k - 1];
  }

  lemma {:induction false} WriteWhatWasRead(text: string)
    ensures WriteLines(ReadLines(text)) == text && Lines(ReadLines(text))
  {
    if text != "" {
      var n := LineEnd(text);
      LineEndIff(text, n);
      WriteWhatWasRead(text[n..]);
      hide OneLine, Ended, LineEnd;
      assert text == text[..n] + text[n..];
      var lines, rest := ReadLines(text), ReadLines(text[n..]);
      assert lines[1..] == rest;
      assert n == |text| ==> rest == [];
      assert forall i | 0 < i < |lines| :: lines[i] == rest[i - 1];
    }
  }

  lemma {:induction false} ReadWhatWasWritten(lines: seq<string>)
    requires Lines(lines)
    ensures ReadLines(WriteLines(lines)) == lines
  {
    if lines != [] {
      var line, rest := lines[0], WriteLines(lines[1..]);
      assert forall i | 0 <= i < |lines| - 1 :: lines[1..][i] == lines[i + 1];
      ReadWhatWasWritten(lines[1..]);
      assert (line + rest)[..|line|] == line && (line + rest)[|line|..] == rest;
      LineEndIff(line + rest, |line|);
    }
  }

  lemma {:induction false} NoReturnsLeft(text: string)
    ensures '\r' !in Universal(text)
  {
    if text != "" { NoReturnsLeft(text[1..]); }
  }

  /** A carriage return and newline are read as one newline. */
  lemma {:induction false} ReturnAndNewlineAreOne(a: string, b: string)
    ensures Universal(a + "\r\n" + b) == Universal(a) + "\n" + Universal(b)
  {
    if a == "" {
      var two := "\r\n" + b;
      assert a + "\r\n" + b == two && two[1..] == "\n" + b && two[1..][1..] == b;
    } else {
      ReturnAndNewlineAreOne(a[1..], b);
      assert (a + "\r\n" + b)[1..] == a[1..] + "\r\n" + b;
    }
  }

  /** So is a carriage return without a newline. */
  lemma {:induction false} ReturnIsANewline(a: string, b: string)
    requires b == "" || b[0] != '\n'
    ensures Universal(a + "\r" + b) == Universal(a) + "\n" + Universal(b)
  {
    if a == "" {
      assert a + "\r" + b == "\r" + b && ("\r" + b)[1..] == b;
    } else {
      ReturnIsANewline(a[1..], b);
      assert (a + "\r" + b)[1..] == a[1..] + "\r" + b;
    }
  }

  lemma {:induction false} UniversalKeeps(text: string)
    requires '\r' !in text
    ensures Universal(text) == text
  {
    if text != "" {
      assert text[0] in text;
      UniversalKeeps(text[1..]);
    }
  }

  lemma {:induction false} ReturnsInLines(lines: seq<string>)
    ensures '\r' in WriteLines(lines) <==> exists i :: 0 <= i < |lines| && '\r' in lines[i]
  {
    if lines != [] {
      ReturnsInLines(lines[1..]);
      if exists i :: 0 <= i < |lines| && '\r' in lines[i] {
        var i :| 0 <= i < |lines| && '\r' in lines[i];
        if i > 0 { assert '\r' in lines[1..][i - 1]; }
      }
      if exists i :: 0 <= i < |lines[1..]| && '\r' in lines[1..][i] {
        var i :| 0 <= i < |lines[1..]| && '\r' in lines[1..][i];
        assert '\r' in lines[i + 1];
      }
    }
  }

  /** What a pass leaves in a file. */
  ghost predicate IsFixedText(cc: Chars, text: string, after: string) {
    var lines := ReadLines(Universal(text));
    if Clean(cc, lines) then after == text
    else exists fixed :: IsFix(cc, lines, fixed) && after == WriteLines(fixed)
  }

  lemma FixKeepsLines(cc: Chars, lines: seq<string>, fixed: seq<string>)
    requires IsFix(cc, lines, fixed) && Lines(lines)
    ensures Lines(fixed)
  {
    hide Offends;
    assert OneLine(TAGGED_FENCE) && Ended(TAGGED_FENCE);
    hide OneLine, Ended;
  }

  lemma FixKeepsNoReturns(cc: Chars, lines: seq<string>, fixed: seq<string>)
    requires IsFix(cc, lines, fixed) && forall i | 0 <= i < |lines| :: '\r' !in lines[i]
    ensures forall i | 0 <= i < |fixed| :: '\r' !in fixed[i]
  {
    hide Offends;
  }

  /** Reading the written file back gives the fixed lines, so their number is kept too. */
  lemma FixedLinesAreReadBack(cc: Chars, text: string, fixed: seq<string>)
    requires IsFix(cc, ReadLines(Universal(text)), fixed)
    ensures ReadLines(Universal(WriteLines(fixed))) == fixed
  {
    var lines := ReadLines(Universal(text));
    WriteWhatWasRead(Universal(text));
    NoReturnsLeft(text);
    ReturnsInLines(lines);
    FixKeepsLines(cc, lines, fixed);
    FixKeepsNoReturns(cc, lines, fixed);
    ReturnsInLines(fixed);
    hide ReadLines, WriteLines, Universal, IsFix;
    UniversalKeeps(WriteLines(fixed));
    ReadWhatWasWritten(fixed);
  }

  /** A second run leaves the file as it is, character for character. */
  lemma SecondRunChangesNothing(cc: Chars, text: string, after: string)
    requires Sane(cc) && IsFixedText(cc, text, after)
    ensures Clean(cc, ReadLines(Universal(after)))
    ensures forall again :: IsFixedText(cc, after, again) <==> again == after
    ensures |ReadLines(Universal(after))| == |ReadLines(Universal(text))|
  {
    var lines := ReadLines(Universal(text));
    if !Clean(cc, lines) {
      var fixed :| IsFix(cc, lines, fixed) && after == WriteLines(fixed);
      FixedLinesAreReadBack(cc, text, fixed);
      FixedIsClean(cc, lines, fixed);
    }
  }

  class TextFile {
    var text: string

    /** fix_file */
    method Fix(cc: Chars, dryRun: bool) returns (changed: bool)
      modifies this
      ensures changed <==> !Clean(cc, ReadLines(Universal(old(text))))
      ensures if dryRun then text == old(text) else IsFixedText(cc, old(text), text)
    {
      var newLines;
      newLines, changed := FixLines(cc, ReadLines(Universal(text)));
      if changed && !dryRun {
        text := WriteLines(newLines);
      }
    }
  }
}
