/** engine/engine.py, _match_anchor and _snap_one: which changed line a quote settles on, and when none. */
module Anchors {
  import opened Text
  import opened DiffParse
  import opened ChangeIndex
  import opened Findings
  import opened Snap

  // ----- What the three levels compare -----

  predicate Within(needle: string, text: string) {
    exists i :: 0 <= i <= |text| && needle <= text[i..]
  }

  /** The text answers the quote: the same but for whitespace around it, the same words, or, if long enough
      to tell anything, one inside the other. */
  predicate Quotes(level: Level, anchor: string, text: string) {
    match level
    case Exact => Strip(text) == Strip(anchor)
    case Normalised => Words(text) == Words(anchor)
    case Substring => Within(Strip(anchor), text) || (|Strip(text)| >= 8 && Within(Strip(text), Strip(anchor)))
  }

  lemma {:induction false} ContainsIsWithin(text: string, needle: string)
    ensures Contains(text, needle) <==> Within(needle, text)
  {
    assert text[0..] == text;
    if text != "" {
      ContainsIsWithin(text[1..], needle);
      if Within(needle, text[1..]) {
        var i :| 0 <= i <= |text[1..]| && needle <= text[1..][i..];
        assert text[1..][i..] == text[i + 1..];
      }
      if Within(needle, text) && !(needle <= text) {
        var i :| 0 <= i <= |text| && needle <= text[i..];
        assert i > 0 && text[1..][i - 1..] == text[i..];
      }
    }
  }

  // ----- Words -----

  predicate AllSpace(s: string) {
    forall i :: 0 <= i < |s| ==> IsSpace(s[i])
  }

  predicate NoSpace(s: string) {
    forall i :: 0 <= i < |s| ==> !IsSpace(s[i])
  }

  predicate AreWords(words: seq<string>) {
    forall i :: 0 <= i < |words| ==> words[i] != "" && NoSpace(words[i])
  }

  lemma {:induction false} WordLengthIs(s: string)
    ensures NoSpace(s[..WordLength(s)])
    ensures WordLength(s) < |s| ==> IsSpace(s[WordLength(s)])
  {
    if s != "" && !IsSpace(s[0]) {
      WordLengthIs(s[1..]);
      assert s[..WordLength(s)] == [s[0]] + s[1..][..WordLength(s[1..])];
    }
  }

  lemma {:induction false} WordsAreWords(s: string)
    ensures AreWords(Words(s))
    decreases |s|
  {
    hide WordLength;
    if s != "" {
      if IsSpace(s[0]) {
        WordsAreWords(s[1..]);
      } else {
        WordLengthIs(s);
        WordsAreWords(s[WordLength(s)..]);
      }
    }
  }

  lemma {:induction false} OneWord(word: string, rest: string)
    requires word != "" && NoSpace(word) && (rest == "" || IsSpace(rest[0]))
    ensures WordLength(word + rest) == |word| && Words(word + rest) == [word] + Words(rest)
    decreases |word|
  {
    WordRun(word, rest);
    var s := word + rest;
    assert s[0] == word[0] && s[..|word|] == word && s[|word|..] == rest;
  }

  lemma {:induction false} WordRun(word: string, rest: string)
    requires NoSpace(word) && (rest == "" || IsSpace(rest[0]))
    ensures WordLength(word + rest) == |word|
    decreases |word|
  {
    if word == "" {
      assert word + rest == rest;
    } else {
      assert (word + rest)[0] == word[0] && (word + rest)[1..] == word[1..] + rest;
      WordRun(word[1..], rest);
    }
  }

  /** Words joined by single spaces are read back as those words. */
  lemma {:induction false} WordsOfJoined(words: seq<string>)
    requires AreWords(words)
    ensures Words(JoinSpace(words)) == words
    decreases |words|
  {
    if |words| == 1 {
      OneWord(words[0], "");
      assert words[0] + "" == words[0] && Words("") == [];
    } else if |words| > 1 {
      var rest := " " + JoinSpace(words[1..]);
      WordsOfJoined(words[1..]);
      OneWord(words[0], rest);
      assert JoinSpace(words) == words[0] + rest;
      assert rest[1..] == JoinSpace(words[1..]);
    }
  }

  lemma {:induction false} NormalIsWords(a: string, b: string)
    ensures Normalise(a) == Normalise(b) <==> Words(a) == Words(b)
  {
    WordsAreWords(a);
    WordsAreWords(b);
    hide Words, JoinSpace;
    WordsOfJoined(Words(a));
    WordsOfJoined(Words(b));
  }

  lemma {:induction false} SpaceFirst(w: string, s: string)
    requires AllSpace(w)
    ensures Words(w + s) == Words(s)
    decreases |w|
  {
    if w == "" {
      assert w + s == s;
    } else {
      assert (w + s)[0] == w[0] && (w + s)[1..] == w[1..] + s;
      SpaceFirst(w[1..], s);
    }
  }

  lemma {:induction false} SpaceLast(s: string, w: string)
    requires AllSpace(w)
    ensures Words(s + w) == Words(s)
    decreases |s|
  {
    if s == "" {
      SpaceFirst(w, "");
      assert s + w == w + "";
    } else if IsSpace(s[0]) {
      assert (s + w)[0] == s[0] && (s + w)[1..] == s[1..] + w;
      SpaceLast(s[1..], w);
    } else {
      WordLengthIs(s);
      var k := WordLength(s);
      assert s + w == s[..k] + (s[k..] + w) && s == s[..k] + s[k..];
      hide WordLength;
      OneWord(s[..k], s[k..] + w);
      OneWord(s[..k], s[k..]);
      SpaceLast(s[k..], w);
    }
  }

  lemma {:induction false} LeftParts(s: string) returns (w: string)
    ensures AllSpace(w) && s == w + StripLeft(s) && (StripLeft(s) == "" || !IsSpace(StripLeft(s)[0]))
  {
    if s != "" && IsSpace(s[0]) {
      var rest := LeftParts(s[1..]);
      w := [s[0]] + rest;
      assert s == [s[0]] + s[1..];
    } else {
      w := "";
    }
  }

  lemma {:induction false} RightParts(s: string) returns (w: string)
    ensures AllSpace(w) && s == StripRight(s) + w && (StripRight(s) == "" || !IsSpace(StripRight(s)[|StripRight(s)| - 1]))
    decreases |s|
  {
    if s != "" && IsSpace(s[|s| - 1]) {
      var rest := RightParts(s[..|s| - 1]);
      w := rest + [s[|s| - 1]];
      assert s == s[..|s| - 1] + [s[|s| - 1]];
    } else {
      w := "";
    }
  }

  /** Stripping takes whitespace off both ends, and all of it. */
  lemma {:induction false} StripParts(s: string) returns (left: string, right: string)
    ensures AllSpace(left) && AllSpace(right) && s == left + (Strip(s) + right)
    ensures Strip(s) == "" || (!IsSpace(Strip(s)[0]) && !IsSpace(Strip(s)[|Strip(s)| - 1]))
  {
    left := LeftParts(s);
    right := RightParts(StripLeft(s));
    if Strip(s) != "" {
      assert StripLeft(s)[0] == Strip(s)[0];
    }
  }

  lemma {:induction false} StrippedWords(s: string)
    ensures Words(Strip(s)) == Words(s)
  {
    var left, right := StripParts(s);
    hide Words, Strip;
    SpaceFirst(left, Strip(s) + right);
    SpaceLast(Strip(s), right);
  }

  lemma {:induction false} AnswersIsQuotes(level: Level, anchor: string, c: Change)
    ensures AnswersChange(level, anchor, c) <==> Quotes(level, anchor, c.text)
  {
    hide Words, Strip, Contains, Within, Normalise;
    match level
    case Exact =>
    case Normalised =>
      NormalIsWords(c.text, Strip(anchor));
      StrippedWords(anchor);
    case Substring =>
      ContainsIsWithin(c.text, Strip(anchor));
      ContainsIsWithin(Strip(anchor), Strip(c.text));
  }

  // ----- Hits, line by line -----

  predicate At(level: Level, f: Finding, c: Change)
    requires f.anchor.Some?
  {
    c.path == f.path && c.side == f.side && Quotes(level, f.anchor.value, c.text)
  }

  /** No changed line of the finding's path and side answers it at the level. */
  predicate Silent(level: Level, f: Finding, cs: seq<Change>)
    requires f.anchor.Some?
  {
    forall i :: 0 <= i < |cs| ==> !At(level, f, cs[i])
  }

  function HitsIn(level: Level, f: Finding, cs: seq<Change>): seq<nat>
    requires f.anchor.Some?
  {
    Hits(level, f.anchor.value, Prepared(LinesAt(cs, f.path, f.side)))
  }

  lemma {:induction false} LinesAtConcat(a: seq<Change>, b: seq<Change>, path: string, side: Side)
    ensures LinesAt(a + b, path, side) == LinesAt(a, path, side) + LinesAt(b, path, side)
    decreases |b|
  {
    if b == [] {
      assert a + b == a;
    } else {
      assert (a + b)[..|a + b| - 1] == a + b[..|b| - 1];
      LinesAtConcat(a, b[..|b| - 1], path, side);
    }
  }

  lemma {:induction false} PreparedConcat(a: seq<(nat, string)>, b: seq<(nat, string)>)
    ensures Prepared(a + b) == Prepared(a) + Prepared(b)
  {
    hide Strip, Normalise;
    if a == [] {
      assert a + b == b;
    } else {
      assert (a + b)[1..] == a[1..] + b;
      PreparedConcat(a[1..], b);
    }
  }

  lemma {:induction false} HitsConcat(level: Level, anchor: string, a: seq<Snap.Candidate>, b: seq<Snap.Candidate>)
    ensures Hits(level, anchor, a + b) == Hits(level, anchor, a) + Hits(level, anchor, b)
  {
    hide Answers;
    if a == [] {
      assert a + b == b;
    } else {
      assert (a + b)[1..] == a[1..] + b;
      HitsConcat(level, anchor, a[1..], b);
    }
  }

  lemma {:induction false} HitsInConcat(level: Level, f: Finding, a: seq<Change>, b: seq<Change>)
    requires f.anchor.Some?
    ensures HitsIn(level, f, a + b) == HitsIn(level, f, a) + HitsIn(level, f, b)
  {
    hide Hits, Prepared, LinesAt;
    LinesAtConcat(a, b, f.path, f.side);
    PreparedConcat(LinesAt(a, f.path, f.side), LinesAt(b, f.path, f.side));
    HitsConcat(level, f.anchor.value, Prepared(LinesAt(a, f.path, f.side)), Prepared(LinesAt(b, f.path, f.side)));
  }

  lemma {:induction false} HitsOfOne(level: Level, f: Finding, c: Change)
    requires f.anchor.Some?
    ensures HitsIn(level, f, [c]) == if At(level, f, c) then [c.line] else []
  {
    AnswersIsQuotes(level, f.anchor.value, c);
    hide Answers, Quotes, Strip, Normalise;
    assert [c][..0] == [] && LinesAt([c][..0], f.path, f.side) == [];
    if c.path == f.path && c.side == f.side {
      assert LinesAt([c], f.path, f.side) == [(c.line, c.text)];
      var p := Snap.Candidate(c.line, c.text, Strip(c.text), Normalise(c.text));
      assert [(c.line, c.text)][1..] == [] && [p][1..] == [];
      assert Prepared([(c.line, c.text)]) == [p];
      assert Hits(level, f.anchor.value, [p]) == if Answers(level, f.anchor.value, p) then [c.line] else [];
    } else {
      assert LinesAt([c], f.path, f.side) == [];
    }
  }

  lemma {:induction false} SilentHits(level: Level, f: Finding, cs: seq<Change>)
    requires f.anchor.Some?
    ensures Silent(level, f, cs) <==> HitsIn(level, f, cs) == []
    decreases |cs|
  {
    hide HitsIn, At;
    if cs == [] {
      NoHits(level, f);
    } else {
      SilentHits(level, f, cs[1..]);
      assert cs == [cs[0]] + cs[1..];
      HitsInConcat(level, f, [cs[0]], cs[1..]);
      HitsOfOne(level, f, cs[0]);
      assert forall i :: 1 <= i < |cs| ==> cs[i] == cs[1..][i - 1];
    }
  }

  lemma {:induction false} NoHits(level: Level, f: Finding)
    requires f.anchor.Some?
    ensures HitsIn(level, f, []) == []
  {
  }

  // ----- The line that is settled on -----

  /** Of the lines that answer, the changed line is the first of those nearest to where the finding was put. */
  predicate Picks(level: Level, f: Finding, a: seq<Change>, c: Change, b: seq<Change>)
    requires f.anchor.Some?
  {
    && At(level, f, c)
    && (forall i :: 0 <= i < |a| && At(level, f, a[i]) ==> Distance(c.line, f.line) < Distance(a[i].line, f.line))
    && (forall i :: 0 <= i < |b| && At(level, f, b[i]) ==> Distance(c.line, f.line) <= Distance(b[i].line, f.line))
  }

  /** It is the only one that answers. */
  predicate Only(level: Level, f: Finding, a: seq<Change>, c: Change, b: seq<Change>)
    requires f.anchor.Some?
  {
    At(level, f, c) && Silent(level, f, a) && Silent(level, f, b)
  }

  /** The finding settles on the changed line c of a + [c] + b: at the strictest level any line answers, and
      inside a longer line only if the quote has eight characters and no other line answers. */
  predicate Settles(level: Level, f: Finding, a: seq<Change>, c: Change, b: seq<Change>)
    requires f.anchor.Some?
  {
    && Picks(level, f, a, c, b)
    && (level != Exact ==> Silent(Exact, f, a + [c] + b))
    && (level == Substring ==> Silent(Normalised, f, a + [c] + b) && |Strip(f.anchor.value)| >= 8 && Only(level, f, a, c, b))
  }

  lemma {:induction false} HitsAround(level: Level, f: Finding, a: seq<Change>, c: Change, b: seq<Change>)
    requires f.anchor.Some? && At(level, f, c)
    ensures HitsIn(level, f, a + [c] + b) == HitsIn(level, f, a) + [c.line] + HitsIn(level, f, b)
  {
    hide HitsIn, At;
    HitsInConcat(level, f, a + [c], b);
    HitsInConcat(level, f, a, [c]);
    HitsOfOne(level, f, c);
  }

  lemma {:induction false} HitsAreThere(level: Level, f: Finding, cs: seq<Change>, line: nat)
    requires f.anchor.Some? && line in HitsIn(level, f, cs)
    ensures exists i :: 0 <= i < |cs| && At(level, f, cs[i]) && cs[i].line == line
    decreases |cs|
  {
    hide HitsIn, At;
    if cs == [] {
      NoHits(level, f);
    } else {
      assert cs == [cs[0]] + cs[1..];
      HitsInConcat(level, f, [cs[0]], cs[1..]);
      HitsOfOne(level, f, cs[0]);
      if line in HitsIn(level, f, cs[1..]) {
        HitsAreThere(level, f, cs[1..], line);
        var i :| 0 <= i < |cs[1..]| && At(level, f, cs[1..][i]) && cs[1..][i].line == line;
        assert cs[i + 1] == cs[1..][i];
      }
    }
  }

  lemma {:induction false} NearestFirst(a: seq<nat>, x: nat, b: seq<nat>, line: nat)
    requires forall m :: m in a ==> Distance(x, line) < Distance(m, line)
    requires forall m :: m in b ==> Distance(x, line) <= Distance(m, line)
    ensures Nearest(a + [x] + b, line) == x
    decreases |a|
  {
    var s := a + [x] + b;
    if a != [] {
      assert s[0] == a[0] && s[1..] == a[1..] + [x] + b;
      NearestFirst(a[1..], x, b, line);
      assert a[0] in a;
    } else if b != [] {
      assert s[0] == x && s[1..] == b;
      NearestIsNearest(b, line);
    }
  }

  lemma {:induction false} NearestPicks(level: Level, f: Finding, a: seq<Change>, c: Change, b: seq<Change>)
    requires f.anchor.Some? && Picks(level, f, a, c, b)
    ensures var hits := HitsIn(level, f, a + [c] + b);
      hits != [] && Nearest(hits, f.line) == c.line && (f.line in hits ==> c.line == f.line)
  {
    HitsAround(level, f, a, c, b);
    hide HitsIn, At;
    forall m | m in HitsIn(level, f, a) ensures Distance(c.line, f.line) < Distance(m, f.line) {
      HitsAreThere(level, f, a, m);
    }
    forall m | m in HitsIn(level, f, b) ensures Distance(c.line, f.line) <= Distance(m, f.line) {
      HitsAreThere(level, f, b, m);
    }
    hide Picks;
    NearestFirst(HitsIn(level, f, a), c.line, HitsIn(level, f, b), f.line);
    NearestIsNearest(HitsIn(level, f, a + [c] + b), f.line);
  }

  /** Where some line answers, one is picked. */
  lemma {:induction false} SomePick(level: Level, f: Finding, cs: seq<Change>) returns (a: seq<Change>, c: Change, b: seq<Change>)
    requires f.anchor.Some? && !Silent(level, f, cs)
    ensures cs == a + [c] + b && Picks(level, f, a, c, b)
    decreases |cs|
  {
    hide At;
    var x, rest := cs[0], cs[1..];
    assert cs == [x] + rest;
    if Silent(level, f, rest) {
      assert forall i :: 1 <= i < |cs| ==> cs[i] == rest[i - 1];
      a, c, b := [], x, rest;
    } else {
      a, c, b := SomePick(level, f, rest);
      PickAhead(level, f, x, a, c, b);
      hide Picks, Distance;
      if At(level, f, x) && Distance(x.line, f.line) <= Distance(c.line, f.line) {
        a, c, b := [], x, rest;
      } else {
        a := [x] + a;
      }
    }
  }

  /** With a line put before it, the pick stays or is that line. */
  lemma {:induction false} PickAhead(level: Level, f: Finding, x: Change, a: seq<Change>, c: Change, b: seq<Change>)
    requires f.anchor.Some? && Picks(level, f, a, c, b)
    ensures if At(level, f, x) && Distance(x.line, f.line) <= Distance(c.line, f.line) then Picks(level, f, [], x, a + [c] + b)
            else Picks(level, f, [x] + a, c, b)
  {
    hide At;
    var rest := a + [c] + b;
    assert forall i :: 0 <= i < |rest| ==> rest[i] == if i < |a| then a[i] else if i == |a| then c else b[i - |a| - 1];
  }

  lemma {:induction false} OnlyIsOne(level: Level, f: Finding, a: seq<Change>, c: Change, b: seq<Change>)
    requires f.anchor.Some? && At(level, f, c)
    ensures |HitsIn(level, f, a + [c] + b)| == 1 <==> Only(level, f, a, c, b)
  {
    HitsAround(level, f, a, c, b);
    SilentHits(level, f, a);
    SilentHits(level, f, b);
    hide HitsIn, At;
  }

  /** The finding has a quote that is not all whitespace. */
  predicate QuotesALine(f: Finding) {
    f.anchor.Some? && !AllSpace(f.anchor.value)
  }

  lemma {:induction false} BlankIsSpace(s: string)
    ensures Strip(s) == "" <==> AllSpace(s)
  {
    var left, right := StripParts(s);
    hide Strip;
    if Strip(s) == "" {
      assert s == left + right;
    } else {
      assert s[|left|] == Strip(s)[0];
    }
  }

  /** A finding without a quote is left as it is. */
  lemma {:induction false} UnquotedStays(f: Finding, cs: seq<Change>)
    requires !QuotesALine(f)
    ensures SnapOne(f, Prepare(Index(cs))) == f
  {
    if f.anchor.Some? {
      BlankIsSpace(f.anchor.value);
    }
    hide Strip;
  }

  lemma {:induction false} SnapByHits(f: Finding, cs: seq<Change>)
    requires QuotesALine(f)
    ensures var exact, normal, inside := HitsIn(Exact, f, cs), HitsIn(Normalised, f, cs), HitsIn(Substring, f, cs);
      var matches := if exact != [] then exact else if normal != [] then normal
                     else if |Strip(f.anchor.value)| >= 8 && |inside| == 1 then inside else [];
      SnapOne(f, Prepare(Index(cs))) ==
        if matches == [] then f.(anchored := false) else if f.line in matches then f else f.(line := Nearest(matches, f.line))
  {
    BlankIsSpace(f.anchor.value);
    IndexedCandidates(cs, f);
    hide Hits, Strip, Prepare, Index, Prepared, LinesAt;
  }

  /** A finding that quotes a line is put on the changed line its quote settles on. */
  lemma {:induction false} SnapSettles(f: Finding, level: Level, a: seq<Change>, c: Change, b: seq<Change>)
    requires QuotesALine(f) && Settles(level, f, a, c, b)
    ensures SnapOne(f, Prepare(Index(a + [c] + b))) == f.(line := c.line)
  {
    var cs := a + [c] + b;
    SnapByHits(f, cs);
    SilentHits(Exact, f, cs);
    SilentHits(Normalised, f, cs);
    NearestPicks(level, f, a, c, b);
    if level == Substring {
      OnlyIsOne(level, f, a, c, b);
    }
    hide HitsIn, At, Silent, SnapOne, Picks, Only, Nearest;
  }

  /** And it is marked unanchored, its line left alone, exactly when no changed line of its path and side is the
      same but for the whitespace around it, none has the same words, and it is not so that the quote has
      eight characters and one line alone holds it or stands in it. */
  lemma {:induction false} UnanchoredExactly(f: Finding, cs: seq<Change>)
    requires QuotesALine(f) && f.anchored
    ensures var f' := SnapOne(f, Prepare(Index(cs)));
      && (!f'.anchored ==> f' == f.(anchored := false))
      && (!f'.anchored <==>
            && Silent(Exact, f, cs) && Silent(Normalised, f, cs)
            && !(|Strip(f.anchor.value)| >= 8 && exists a, c, b :: cs == a + [c] + b && Only(Substring, f, a, c, b)))
  {
    SnapByHits(f, cs);
    SilentHits(Exact, f, cs);
    SilentHits(Normalised, f, cs);
    SilentHits(Substring, f, cs);
    hide HitsIn, At, Silent, SnapOne, Picks, Nearest, Strip;
    if |HitsIn(Substring, f, cs)| == 1 {
      var a, c, b := SomePick(Substring, f, cs);
      assert At(Substring, f, c) by { PickIsAt(Substring, f, a, c, b); }
      OnlyIsOne(Substring, f, a, c, b);
    }
    if a, c, b :| cs == a + [c] + b && Only(Substring, f, a, c, b) {
      OnlyIsOne(Substring, f, a, c, b);
    }
  }

  lemma {:induction false} PickIsAt(level: Level, f: Finding, a: seq<Change>, c: Change, b: seq<Change>)
    requires f.anchor.Some? && Picks(level, f, a, c, b)
    ensures At(level, f, c)
  {
  }

  /** A finding that stays anchored has settled. */
  lemma {:induction false} AnchoredHasSettled(f: Finding, cs: seq<Change>) returns (level: Level, a: seq<Change>, c: Change, b: seq<Change>)
    requires QuotesALine(f) && SnapOne(f, Prepare(Index(cs))).anchored
    ensures cs == a + [c] + b && Settles(level, f, a, c, b)
  {
    SnapByHits(f, cs);
    SilentHits(Exact, f, cs);
    SilentHits(Normalised, f, cs);
    SilentHits(Substring, f, cs);
    hide HitsIn, At, Silent, SnapOne, Picks, Nearest, Strip;
    level := if !Silent(Exact, f, cs) then Exact else if !Silent(Normalised, f, cs) then Normalised else Substring;
    a, c, b := SomePick(level, f, cs);
    PickIsAt(level, f, a, c, b);
    OnlyIsOne(level, f, a, c, b);
  }
}
