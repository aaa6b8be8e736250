/** Fields and lines of plain text: `str.split()` and `str.splitlines()`. */
module TextFields {
  import opened Text

  /** The characters that end a line; `\r\n` ends one line, not two. */
  predicate IsBreak(c: char) {
    || '\n' <= c <= '\r'
    || '\U{1C}' <= c <= '\U{1E}'
    || c == '\U{85}' || c == '\U{2028}' || c == '\U{2029}'
  }

  /** A field: some characters, none of them white space. */
  predicate IsWord(s: string) {
    s != "" && forall i | 0 <= i < |s| :: !IsSpace(s[i])
  }

  predicate OneLine(s: string) {
    forall i | 0 <= i < |s| :: !IsBreak(s[i])
  }

  /** The length of the leading run of characters that are not white space. */
  function WordLength(s: string): (n: nat)
    ensures n <= |s| && forall i | 0 <= i < n :: !IsSpace(s[i])
    ensures n < |s| ==> IsSpace(s[n])
  {
    if s == "" || IsSpace(s[0]) then 0 else 1 + WordLength(s[1..])
  }

  function Words(s: string): (r: seq<string>)
    ensures forall w | w in r :: IsWord(w)
  {
    if s == "" then []
    else if IsSpace(s[0]) then Words(s[1..])
    else [s[..WordLength(s)]] + Words(s[WordLength(s)..])
  }

  function LineLength(s: string): (n: nat)
    ensures n <= |s| && forall i | 0 <= i < n :: !IsBreak(s[i])
    ensures n < |s| ==> IsBreak(s[n])
  {
    if s == "" || IsBreak(s[0]) then 0 else 1 + LineLength(s[1..])
  }

  function Lines(s: string): (r: seq<string>)
    ensures forall line | line in r :: OneLine(line)
  {
    if s == "" then []
    else
      var n := LineLength(s);
      if n == |s| then [s]
      else if s[n] == '\r' && n + 1 < |s| && s[n + 1] == '\n' then [s[..n]] + Lines(s[n + 2..])
      else [s[..n]] + Lines(s[n + 1..])
  }

  /** Each line followed by a line feed. */
  function Unlines(lines: seq<string>): string {
    if lines == [] then "" else lines[0] + "\n" + Unlines(lines[1..])
  }

  /** The word at the front of a text, up to a space or the end. */
  lemma WordsStep(w: string, rest: string)
    requires IsWord(w) && (rest == "" || IsSpace(rest[0]))
    ensures Words(w + rest) == [w] + Words(rest)
  {
    var s := w + rest;
    assert forall i | 0 <= i < |w| :: s[i] == w[i];
    assert rest != "" ==> s[|w|] == rest[0];
    assert s[..|w|] == w && s[|w|..] == rest;
  }

  /** Two fields joined by a space split into those two fields. */
  lemma WordsOfPair(a: string, b: string)
    requires IsWord(a) && IsWord(b)
    ensures Words(a + " " + b) == [a, b]
  {
    WordsStep(a, " " + b);
    assert a + (" " + b) == a + " " + b;
    assert (" " + b)[1..] == b;
    WordsStep(b, "");
    assert b + "" == b;
  }

  lemma LineStep(first: string, rest: string)
    requires OneLine(first) && rest != "" && IsBreak(rest[0])
    ensures LineLength(first + rest) == |first|
  {
    var s := first + rest;
    assert forall i | 0 <= i < |first| :: s[i] == first[i];
    assert s[|first|] == rest[0];
  }

  /** Splitting rendered lines gives the lines back. */
  lemma {:induction false} LinesOfUnlines(lines: seq<string>)
    requires forall line | line in lines :: OneLine(line)
    ensures Lines(Unlines(lines)) == lines
  {
    if lines != [] {
      var first, rest := lines[0], Unlines(lines[1..]);
      LinesOfUnlines(lines[1..]);
      var s := Unlines(lines);
      assert s == first + ("\n" + rest);
      LineStep(first, "\n" + rest);
      var n := |first|;
      assert s[..n] == first && s[n] == '\n' && s[n + 1..] == rest;
      assert lines == [first] + lines[1..];
    }
  }

  /** A decimal numeral is a field. */
  lemma DecimalIsWord(n: nat)
    ensures IsWord(Decimal(n)) && OneLine(Decimal(n))
  {
  }
}
