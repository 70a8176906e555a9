/** Text as the program handles it: split on newline alone, joined back, sliced with
    Python's clamping rules. */
module Text {
  const NEWLINE: char := '\n'

  predicate NoNewline(s: string) {
    NEWLINE !in s
  }

  predicate AllSingle(lines: seq<string>) {
    forall i :: 0 <= i < |lines| ==> NoNewline(lines[i])
  }

  predicate StartsWith(s: string, prefix: string) {
    prefix <= s
  }

  lemma {:induction false} NotPrefix(s: string, prefix: string)
    requires prefix != "" && (s == "" || s[0] != prefix[0])
    ensures !StartsWith(s, prefix)
  {
  }

  predicate EndsWithNewline(s: string) {
    s != "" && s[|s| - 1] == NEWLINE
  }

  /** text.split("\n") */
  function Split(text: string): (lines: seq<string>)
    ensures |lines| >= 1
    ensures AllSingle(lines)
  {
    if text == "" then [""]
    else
      var rest := Split(text[1..]);
      if text[0] == NEWLINE then [""] + rest
      else [[text[0]] + rest[0]] + rest[1..]
  }

  /** "\n".join(lines) */
  function Join(lines: seq<string>): string {
    if |lines| == 0 then ""
    else if |lines| == 1 then lines[0]
    else lines[0] + [NEWLINE] + Join(lines[1..])
  }

  function Concat(parts: seq<string>): string {
    if parts == [] then "" else parts[0] + Concat(parts[1..])
  }

  function RemoveSuffix(text: string): string {
    if EndsWithNewline(text) then text[..|text| - 1] else text
  }

  /** The lines every consumer of a diff walks: one final newline ends the last line. */
  function Lines(text: string): (lines: seq<string>)
    ensures |lines| >= 1
    ensures AllSingle(lines)
  {
    Split(RemoveSuffix(text))
  }

  /** A text given by its lines and by whether the last line is ended. */
  function Unlines(lines: seq<string>, ended: bool): string {
    Join(lines) + if ended then [NEWLINE] else ""
  }

  lemma {:induction false} JoinSplit(text: string)
    ensures Join(Split(text)) == text
  {
    if text != "" {
      JoinSplit(text[1..]);
      var rest := Split(text[1..]);
      if text[0] == NEWLINE {
        assert ([""] + rest)[1..] == rest;
      } else {
        var lines := Split(text);
        assert lines[1..] == rest[1..];
        assert text == [text[0]] + text[1..];
      }
    }
  }

  lemma {:induction false} SplitFirst(line: string, rest: string)
    requires NoNewline(line)
    ensures Split(line) == [line]
    ensures Split(line + [NEWLINE] + rest) == [line] + Split(rest)
  {
    if line == "" {
      assert (line + [NEWLINE] + rest)[1..] == rest;
    } else {
      var tail := line[1..];
      assert forall c :: c in tail ==> c in line;
      SplitFirst(tail, rest);
      assert (line + [NEWLINE] + rest)[1..] == tail + [NEWLINE] + rest;
      assert [line[0]] + tail == line;
      assert line[0] in line;
    }
  }

  lemma {:induction false} SplitJoin(lines: seq<string>)
    requires lines != [] && AllSingle(lines)
    ensures Split(Join(lines)) == lines
  {
    if |lines| == 1 {
      SplitFirst(lines[0], "");
    } else {
      SplitJoin(lines[1..]);
      SplitFirst(lines[0], Join(lines[1..]));
      assert lines == [lines[0]] + lines[1..];
    }
  }

  lemma {:induction false} JoinAppend(a: seq<string>, b: seq<string>)
    requires a != [] && b != []
    ensures Join(a + b) == Join(a) + [NEWLINE] + Join(b)
  {
    if |a| == 1 {
      assert (a + b)[1..] == b;
    } else {
      JoinAppend(a[1..], b);
      assert (a + b)[1..] == a[1..] + b;
    }
  }

  lemma {:induction false} JoinEndsWithNewline(lines: seq<string>)
    requires lines != [] && AllSingle(lines)
    ensures EndsWithNewline(Join(lines)) <==> |lines| >= 2 && lines[|lines| - 1] == ""
  {
    if |lines| == 1 {
      assert lines[0] != "" ==> lines[0][|lines[0]| - 1] in lines[0];
    } else {
      JoinEndsWithNewline(lines[1..]);
    }
  }

  /** A text is its lines plus the one newline that ends the last of them. */
  lemma {:induction false} LinesOfText(text: string)
    ensures text == Unlines(Lines(text), EndsWithNewline(text))
  {
    JoinSplit(RemoveSuffix(text));
  }

  /** Printing lines and reading them back, with no final newline or with one. */
  lemma {:induction false} LinesOfUnlines(lines: seq<string>, ended: bool)
    requires lines != [] && AllSingle(lines)
    ensures (ended || |lines| == 1 || lines[|lines| - 1] != "") ==> Lines(Unlines(lines, ended)) == lines
    ensures !ended && |lines| >= 2 && lines[|lines| - 1] == "" ==> Lines(Unlines(lines, ended)) == lines[..|lines| - 1]
  {
    SplitJoin(lines);
    JoinEndsWithNewline(lines);
    if ended {
      assert RemoveSuffix(Unlines(lines, true)) == Join(lines);
    } else {
      assert Unlines(lines, false) == Join(lines);
      if |lines| >= 2 && lines[|lines| - 1] == "" {
        var front := lines[..|lines| - 1];
        assert lines == front + [""];
        JoinAppend(front, [""]);
        assert RemoveSuffix(Join(lines)) == Join(front);
        SplitJoin(front);
      }
    }
  }

  lemma {:induction false} Assoc<T>(a: seq<T>, b: seq<T>, c: seq<T>)
    ensures a + (b + c) == (a + b) + c
  {
  }

  /** A Python index: a negative one counts from the end, and both are clamped. */
  function Clamp(i: int, n: nat): (r: nat)
    ensures r <= n
    ensures 0 <= i <= n ==> r == i
  {
    if i < 0 then (if i + n < 0 then 0 else i + n) else if i > n then n else i
  }

  /** s[lo:hi] */
  function Slice<T>(s: seq<T>, lo: int, hi: int): (r: seq<T>)
    ensures 0 <= lo <= hi <= |s| ==> r == s[lo..hi]
    ensures 0 <= lo && 0 <= hi <= lo ==> r == []
    ensures 0 <= lo && |s| <= lo ==> r == []
    ensures forall x :: x in r ==> x in s
  {
    var a, b := Clamp(lo, |s|), Clamp(hi, |s|);
    if a < b then s[a..b] else []
  }

  function Max(a: int, b: int): int {
    if a < b then b else a
  }

  function Min(a: int, b: int): int {
    if b < a then b else a
  }
}
