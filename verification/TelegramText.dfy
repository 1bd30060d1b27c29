/** The text normaliser of the channel posts, applied once by the service and again by the publisher. */
module TelegramText {
  import opened PythonText

  const MAX_MESSAGE_LENGTH := 4096

  predicate HasBreak(s: string) {
    exists i :: 0 <= i < |s| && IsLineBreak(s[i])
  }

  function FirstBreak(s: string): (i: nat)
    requires HasBreak(s)
    ensures i < |s| && IsLineBreak(s[i]) && !HasBreak(s[..i])
  {
    if IsLineBreak(s[0]) then 0
    else
      assert exists i :: 1 <= i < |s| && s[i] == s[1..][i - 1] && IsLineBreak(s[1..][i - 1]);
      FirstBreak(s[1..]) + 1
  }

  /** `splitlines`: a final break ends the last line, and "\r\n" is one break. */
  function SplitLines(s: string): seq<string> {
    if s == [] then []
    else if !HasBreak(s) then [s]
    else
      var i := FirstBreak(s);
      var width := if s[i] == '\r' && i + 1 < |s| && s[i + 1] == '\n' then 2 else 1;
      [s[..i]] + SplitLines(s[i + width..])
  }

  /** The lines, each without white space at its end, joined by newlines. */
  function JoinTrimmed(lines: seq<string>): string {
    if lines == [] then "" else if |lines| == 1 then Rstrip(lines[0])
    else Rstrip(lines[0]) + "\n" + JoinTrimmed(lines[1..])
  }

  function Normalized(value: string): string {
    Strip(JoinTrimmed(SplitLines(value)))
  }

  function SafeText(value: string): string {
    var normalized := Normalized(value);
    if |normalized| <= MAX_MESSAGE_LENGTH then normalized
    else Rstrip(normalized[..MAX_MESSAGE_LENGTH - 3]) + "..."
  }

  // ---------------------------------------------------------------- normal form

  /** No break but the newline, and no other white space before a newline or at the end. */
  ghost predicate Trimmed(s: string) {
    forall i :: 0 <= i < |s| ==> TrimmedAt(s, i)
  }

  ghost predicate TrimmedAt(s: string, i: nat)
    requires i < |s|
  {
    && (IsLineBreak(s[i]) ==> s[i] == '\n')
    && (IsSpace(s[i]) && s[i] != '\n' ==> i + 1 < |s| && s[i + 1] != '\n')
  }

  ghost predicate Tight(s: string) {
    s != [] ==> !IsSpace(s[0]) && !IsSpace(s[|s| - 1])
  }

  lemma {:induction false} SplitLinesHaveNoBreaks(s: string)
    ensures forall l :: l in SplitLines(s) ==> !HasBreak(l)
  {
    if HasBreak(s) {
      var i := FirstBreak(s);
      var width := if s[i] == '\r' && i + 1 < |s| && s[i + 1] == '\n' then 2 else 1;
      SplitLinesHaveNoBreaks(s[i + width..]);
    }
  }

  lemma TrimmedLine(l: string)
    requires !HasBreak(l)
    ensures Trimmed(Rstrip(l)) && !HasBreak(Rstrip(l))
  {
    RstripDropsSpace(l);
    var r := Rstrip(l);
    forall i | 0 <= i < |r| ensures TrimmedAt(r, i) && !IsLineBreak(r[i]) {
      assert r[i] == l[i] && (i + 1 < |r| ==> r[i + 1] == l[i + 1]);
    }
  }

  lemma TrimmedConcat(a: string, b: string)
    requires Trimmed(a) && !HasBreak(a) && Trimmed(b)
    ensures Trimmed(a + "\n" + b)
  {
    var s := a + "\n" + b;
    forall i | 0 <= i < |s| ensures TrimmedAt(s, i) {
      if i < |a| {
        assert TrimmedAt(a, i);
      } else if i > |a| {
        assert TrimmedAt(b, i - |a| - 1);
      }
    }
  }

  lemma {:induction false} JoinIsTrimmed(lines: seq<string>)
    requires forall l :: l in lines ==> !HasBreak(l)
    ensures Trimmed(JoinTrimmed(lines))
  {
    if lines != [] {
      TrimmedLine(lines[0]);
      JoinIsTrimmed(lines[1..]);
      TrimmedConcat(Rstrip(lines[0]), JoinTrimmed(lines[1..]));
    }
  }

  /** A tight piece of a trimmed text is trimmed. */
  lemma PieceIsTrimmed(s: string, from: nat, to: nat)
    requires Trimmed(s) && from <= to <= |s| && Tight(s[from..to])
    ensures Trimmed(s[from..to])
  {
    var t := s[from..to];
    forall i | 0 <= i < |t| ensures TrimmedAt(t, i) {
      assert TrimmedAt(s, from + i);
    }
  }

  lemma NormalizedIsNormal(value: string)
    ensures Trimmed(Normalized(value)) && Tight(Normalized(value))
  {
    var joined := JoinTrimmed(SplitLines(value));
    SplitLinesHaveNoBreaks(value);
    JoinIsTrimmed(SplitLines(value));
    var r := Rstrip(joined);
    RstripDropsSpace(joined);
    LstripDropsSpace(r);
    StripIsTight(joined);
    var from := |r| - |Lstrip(r)|;
    assert joined[from..|r|] == Lstrip(r);
    PieceIsTrimmed(joined, from, |r|);
  }

  /** In a trimmed text that ends in ink, the first line break is a newline with more to follow. */
  lemma FirstLine(s: string)
    requires Trimmed(s) && HasBreak(s) && !IsSpace(s[|s| - 1])
    ensures var i := FirstBreak(s);
            && s[i] == '\n' && i + 1 < |s|
            && Rstrip(s[..i]) == s[..i]
            && SplitLines(s) == [s[..i]] + SplitLines(s[i + 1..])
            && Trimmed(s[i + 1..])
  {
    var i := FirstBreak(s);
    var line, rest := s[..i], s[i + 1..];
    assert TrimmedAt(s, i);
    assert i > 0 ==> TrimmedAt(s, i - 1) && line[i - 1] == s[i - 1];
    forall j | 0 <= j < |rest| ensures TrimmedAt(rest, j) {
      assert TrimmedAt(s, i + 1 + j);
    }
  }

  lemma CutAtNewline(s: string, i: nat)
    requires i < |s| && s[i] == '\n'
    ensures s == s[..i] + "\n" + s[i + 1..]
  {
  }

  lemma JoinedInFront(line: string, lines: seq<string>)
    requires lines != []
    ensures JoinTrimmed([line] + lines) == Rstrip(line) + "\n" + JoinTrimmed(lines)
  {
    assert ([line] + lines)[1..] == lines;
  }

  /** Splitting and joining give a normal text back. */
  lemma {:induction false} JoinUndoesSplit(s: string)
    requires Trimmed(s) && (s != [] ==> !IsSpace(s[|s| - 1]))
    ensures JoinTrimmed(SplitLines(s)) == s
  {
    if HasBreak(s) {
      var i := FirstBreak(s);
      FirstLine(s);
      var line, rest := s[..i], s[i + 1..];
      JoinUndoesSplit(rest);
      CutAtNewline(s, i);
      JoinedInFront(line, SplitLines(rest));
    } else if s != [] {
      assert Rstrip(s) == s;
      assert JoinTrimmed([s]) == Rstrip(s);
    }
  }

  lemma NormalStays(s: string)
    requires Trimmed(s) && Tight(s)
    ensures Normalized(s) == s
  {
    JoinUndoesSplit(s);
    TightStripsToItself(s);
  }

  lemma CutIsNormal(s: string, n: nat)
    requires Trimmed(s) && Tight(s) && 0 < n <= |s|
    ensures var t := Rstrip(s[..n]) + "..."; Trimmed(t) && Tight(t) && |t| <= n + 3
  {
    var cut := Rstrip(s[..n]);
    RstripDropsSpace(s[..n]);
    assert cut == s[0..|cut|];
    PieceIsTrimmed(s, 0, |cut|);
    var t := cut + "...";
    forall i | 0 <= i < |t| ensures TrimmedAt(t, i) {
      if i < |cut| {
        assert TrimmedAt(cut, i);
      }
    }
  }

  // ---------------------------------------------------------------- main results

  lemma SafeTextIsNormal(value: string)
    ensures Trimmed(SafeText(value)) && Tight(SafeText(value))
    ensures |SafeText(value)| <= MAX_MESSAGE_LENGTH
  {
    NormalizedIsNormal(value);
    if |Normalized(value)| > MAX_MESSAGE_LENGTH {
      CutIsNormal(Normalized(value), MAX_MESSAGE_LENGTH - 3);
    }
  }

  /** Normalising twice is normalising once, so the stored text is the text that is sent. */
  lemma SafeTextIsIdempotent(value: string)
    ensures SafeText(SafeText(value)) == SafeText(value)
  {
    SafeTextIsNormal(value);
    NormalStays(SafeText(value));
  }

  /** A text already in that form that fits is left alone. */
  lemma NormalTextIsKept(value: string)
    requires Trimmed(value) && Tight(value) && |value| <= MAX_MESSAGE_LENGTH
    ensures SafeText(value) == value
  {
    NormalStays(value);
  }
}
