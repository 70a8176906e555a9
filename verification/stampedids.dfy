/** core/comment.py: the hidden ids a finding comment ends with, written, read back, and retired. */
module StampedIds {
  import opened Text
  import opened DiffParse
  import opened Findings
  import opened Snap
  import opened Markers
  import opened Prose

  const FINDING: string := "<" + "!-- lgtmaybe-finding:"
  const IDENTITY: string := "<" + "!-- lgtmaybe-identity:"
  const RETIRED_FINDING: string := "<" + "!-- lgtmaybe-resolved-fingerprint:"
  const RETIRED_IDENTITY: string := "<" + "!-- lgtmaybe-resolved-identity:"
  const CLOSE: string := " -->"

  // ----- Reading -----

  predicate IsHexDigit(c: char) {
    '0' <= c <= '9' || 'a' <= c <= 'f'
  }

  predicate AllHex(s: string) {
    forall i :: 0 <= i < |s| ==> IsHexDigit(s[i])
  }

  /** An id as the markers spell one. */
  predicate IsId(s: string) {
    s != "" && AllHex(s)
  }

  function HexRun(s: string): (n: nat)
    ensures n <= |s| && AllHex(s[..n]) && (n < |s| ==> !IsHexDigit(s[n]))
  {
    if s == "" || !IsHexDigit(s[0]) then 0 else 1 + HexRun(s[1..])
  }

  /** The id of the marker the text starts with, and the text after it. */
  function ReadMarker(s: string, opener: string): (r: Option<(string, string)>)
    ensures r.Some? ==> IsId(r.value.0) && s == opener + r.value.0 + CLOSE + r.value.1
  {
    if !StartsWith(s, opener) then None
    else
      var body := s[|opener|..];
      var n := HexRun(body);
      if n == 0 || !StartsWith(body[n..], CLOSE) then None
      else
        assert body == body[..n] + body[n..];
        Some((body[..n], body[n + |CLOSE|..]))
  }

  datatype Ids = Ids(fingerprint: string, identity: Option<string>)

  /** The ids of a block that starts the text: a finding marker, possibly an identity marker, and nothing
      after them but whitespace. */
  function ReadBlock(s: string): Option<Ids> {
    match ReadMarker(s, FINDING)
    case None => None
    case Some((fingerprint, rest)) =>
      if StripLeft(rest) == "" then Some(Ids(fingerprint, None))
      else
        match ReadMarker(StripLeft(rest), IDENTITY)
        case None => None
        case Some((identity, after)) =>
          if StripLeft(after) == "" then Some(Ids(fingerprint, Some(identity))) else None
  }

  /** The leftmost place from i on where a block starts. */
  function FindBlock(s: string, i: nat): (at: Option<nat>)
    requires i <= |s|
    ensures at.Some? ==> i <= at.value <= |s| && ReadBlock(s[at.value..]).Some?
    decreases |s| - i
  {
    if ReadBlock(s[i..]).Some? then Some(i) else if i == |s| then None else FindBlock(s, i + 1)
  }

  function SplitStampedIds(body: string): (string, string) {
    match FindBlock(body, 0)
    case None => (body, "")
    case Some(i) => (body[..i], body[i..])
  }

  function StampedIds(body: string): Option<Ids> {
    match FindBlock(body, 0)
    case None => None
    case Some(i) => ReadBlock(body[i..])
  }

  /** Every active hidden id of a comment. */
  function FindingKeys(body: string): set<string> {
    match StampedIds(body)
    case None => {}
    case Some(Ids(fingerprint, None)) => {fingerprint}
    case Some(Ids(fingerprint, Some(identity))) => {fingerprint, identity}
  }

  // ----- Writing -----

  /** The block a comment ends with. */
  function Block(fingerprint: string, identity: string): string {
    FINDING + fingerprint + CLOSE + "\n" + IDENTITY + identity + CLOSE
  }

  /** The body of an inline comment. The badge, and the severity in capitals, are given. */
  function RenderInlineBody(f: Finding, severity: string, badge: string, fingerprint: string, identity: string): string {
    "**[" + severity + badge + "] " + ModelProse(f.title) + "**" + "\n\n" + ModelProse(f.body)
    + (if f.suggestion.Some? then "\n\n```suggestion\n" + DefangFences(f.suggestion.value) + "\n```" else "")
    + "\n\n" + Block(fingerprint, identity)
  }

  /** Both ids of a block moved to the families no reader matches. */
  function RetireStampedIds(ids: string): string {
    ReplaceAll(ReplaceAll(ids, FINDING, RETIRED_FINDING), IDENTITY, RETIRED_IDENTITY)
  }

  // ----- What reading finds -----

  lemma {:induction false} HexRunOf(hex: string, rest: string)
    requires AllHex(hex) && (rest == "" || !IsHexDigit(rest[0]))
    ensures HexRun(hex + rest) == |hex|
    decreases |hex|
  {
    if hex == "" {
      assert hex + rest == rest;
    } else {
      assert (hex + rest)[0] == hex[0] && (hex + rest)[1..] == hex[1..] + rest;
      HexRunOf(hex[1..], rest);
    }
  }

  /** A marker that is written is read. */
  lemma {:induction false} ReadsWritten(opener: string, id: string, rest: string)
    requires IsId(id)
    ensures ReadMarker(opener + id + CLOSE + rest, opener) == Some((id, rest))
  {
    var s := opener + id + CLOSE + rest;
    Assoc4(opener, id, CLOSE, rest);
    assert s[|opener|..] == id + (CLOSE + rest);
    assert (CLOSE + rest)[0] == ' ';
    HexRunOf(id, CLOSE + rest);
    assert (id + (CLOSE + rest))[|id|..] == CLOSE + rest;
    assert (id + (CLOSE + rest))[|id| + |CLOSE|..] == rest;
  }

  lemma {:induction false} Assoc4(a: string, b: string, c: string, d: string)
    ensures a + b + c + d == a + (b + (c + d))
  {
  }

  /** How the openers are spelt: each opens with the only '<' it has. */
  lemma {:induction false} Spelling()
    ensures FINDING != "" && FINDING[0] == '<' && '<' !in FINDING[1..]
    ensures IDENTITY != "" && IDENTITY[0] == '<' && '<' !in IDENTITY[1..]
    ensures CLOSE != "" && CLOSE[0] == ' ' && '<' !in CLOSE
  {
  }

  lemma {:induction false} BlockReads(fingerprint: string, identity: string)
    requires IsId(fingerprint) && IsId(identity)
    ensures ReadBlock(Block(fingerprint, identity)) == Some(Ids(fingerprint, Some(identity)))
  {
    Spelling();
    hide FINDING, IDENTITY, CLOSE, ReadMarker, IsId;
    var tail := IDENTITY + identity + CLOSE;
    assert Block(fingerprint, identity) == FINDING + fingerprint + CLOSE + ("\n" + tail);
    ReadsWritten(FINDING, fingerprint, "\n" + tail);
    assert ("\n" + tail)[1..] == tail && tail[0] == IDENTITY[0];
    assert StripLeft("\n" + tail) == StripLeft(tail) == tail;
    assert tail == tail + "";
    ReadsWritten(IDENTITY, identity, "");
  }

  /** Only markers open with '<', and a block has at most two. */
  lemma {:induction false} BlockOpensTwice(s: string)
    requires ReadBlock(s).Some?
    ensures multiset(s)['<'] <= 2
  {
    hide FINDING, IDENTITY, CLOSE;
    var (fingerprint, rest) := ReadMarker(s, FINDING).value;
    MarkerOpensOnce(FINDING, fingerprint, rest);
    SpaceOpensNothing(rest);
    var middle := StripLeft(rest);
    if middle != "" {
      var (identity, after) := ReadMarker(middle, IDENTITY).value;
      MarkerOpensOnce(IDENTITY, identity, after);
      SpaceOpensNothing(after);
    }
  }

  lemma {:induction false} MarkerOpensOnce(opener: string, id: string, rest: string)
    requires IsId(id) && (opener == FINDING || opener == IDENTITY)
    ensures multiset(opener + id + CLOSE + rest)['<'] == 1 + multiset(rest)['<']
  {
    Spelling();
    hide FINDING, IDENTITY, CLOSE;
    assert opener == [opener[0]] + opener[1..];
    assert '<' !in id;
  }

  lemma {:induction false} SpaceOpensNothing(s: string)
    ensures multiset(s)['<'] == multiset(StripLeft(s))['<']
    decreases |s|
  {
    if s != "" && IsSpace(s[0]) {
      assert s == [s[0]] + s[1..];
      SpaceOpensNothing(s[1..]);
    }
  }

  /** Whatever stands before it, a block at the end of a body is the one that is found: text before it
      that looks like one does not count. */
  lemma {:induction false} LastBlockFound(before: string, fingerprint: string, identity: string)
    requires IsId(fingerprint) && IsId(identity)
    ensures SplitStampedIds(before + Block(fingerprint, identity)) == (before, Block(fingerprint, identity))
    ensures StampedIds(before + Block(fingerprint, identity)) == Some(Ids(fingerprint, Some(identity)))
  {
    hide ReadBlock, Block;
    var block := Block(fingerprint, identity);
    var body := before + block;
    BlockReads(fingerprint, identity);
    assert body[|before|..] == block && body[..|before|] == before;
    forall i | 0 <= i < |before| ensures ReadBlock(body[i..]).None? {
      EarlierIsNoBlock(before[i..], fingerprint, identity);
      assert body[i..] == before[i..] + block;
    }
    FoundFrom(body, 0, |before|);
  }

  lemma {:induction false} EarlierIsNoBlock(text: string, fingerprint: string, identity: string)
    requires text != "" && IsId(fingerprint) && IsId(identity)
    ensures ReadBlock(text + Block(fingerprint, identity)).None?
  {
    var s := text + Block(fingerprint, identity);
    BlockCounts(fingerprint, identity);
    hide FINDING, IDENTITY, CLOSE, Block, IsId, ReadBlock;
    assert s[0] == text[0];
    if text[0] == '<' {
      OpensMore(text, Block(fingerprint, identity));
    }
    if ReadBlock(s).Some? {
      BlockOpens(s);
      BlockOpensTwice(s);
    }
  }

  lemma {:induction false} OpensMore(text: string, block: string)
    requires text != "" && text[0] == '<' && multiset(block)['<'] == 2
    ensures multiset(text + block)['<'] > 2
  {
    assert text == [text[0]] + text[1..];
  }

  lemma {:induction false} BlockOpens(s: string)
    requires ReadBlock(s).Some?
    ensures s != "" && s[0] == '<'
  {
    Spelling();
    hide FINDING, IDENTITY, CLOSE;
  }

  lemma {:induction false} BlockCounts(fingerprint: string, identity: string)
    requires IsId(fingerprint) && IsId(identity)
    ensures multiset(Block(fingerprint, identity))['<'] == 2
  {
    hide FINDING, IDENTITY, CLOSE, IsId, Block;
    var tail := IDENTITY + identity + CLOSE;
    BlockParts(fingerprint, identity);
    MarkerOpensOnce(FINDING, fingerprint, "\n" + tail);
    assert tail + "" == tail;
    MarkerOpensOnce(IDENTITY, identity, "");
    NewlineOpensNothing(tail);
  }

  lemma {:induction false} BlockParts(fingerprint: string, identity: string)
    ensures Block(fingerprint, identity) == FINDING + fingerprint + CLOSE + ("\n" + (IDENTITY + identity + CLOSE))
  {
    hide FINDING, IDENTITY, CLOSE;
    var front := FINDING + fingerprint + CLOSE;
    assert front + "\n" + IDENTITY + identity + CLOSE == front + ("\n" + (IDENTITY + identity + CLOSE));
  }

  lemma {:induction false} NewlineOpensNothing(text: string)
    ensures multiset("\n" + text)['<'] == multiset(text)['<']
  {
  }

  lemma {:induction false} FoundFrom(s: string, i: nat, at: nat)
    requires i <= at <= |s| && ReadBlock(s[at..]).Some?
    requires forall k :: i <= k < at ==> ReadBlock(s[k..]).None?
    ensures FindBlock(s, i) == Some(at)
    decreases at - i
  {
    hide ReadBlock;
    if i < at {
      FoundFrom(s, i + 1, at);
    }
  }

  /** A comment's own ids are read back from it, and no others, whatever its title, body and suggestion carry. */
  lemma {:induction false} RenderedKeysReadBack(f: Finding, severity: string, badge: string, fingerprint: string, identity: string)
    requires IsId(fingerprint) && IsId(identity)
    ensures FindingKeys(RenderInlineBody(f, severity, badge, fingerprint, identity)) == {fingerprint, identity}
  {
    hide ModelProse, DefangFences, Block, FindBlock, ReadBlock;
    var before := "**[" + severity + badge + "] " + ModelProse(f.title) + "**" + "\n\n" + ModelProse(f.body)
      + (if f.suggestion.Some? then "\n\n```suggestion\n" + DefangFences(f.suggestion.value) + "\n```" else "")
      + "\n\n";
    LastBlockFound(before, fingerprint, identity);
  }

  // ----- Retiring -----

  lemma {:induction false} ReplaceSkips(text: string, rest: string, opener: string, to: string)
    requires opener != "" && opener[0] == '<' && '<' !in text
    ensures ReplaceAll(text + rest, opener, to) == text + ReplaceAll(rest, opener, to)
    decreases |text|
  {
    if text == "" {
      assert text + rest == rest;
    } else {
      assert (text + rest)[0] == text[0] && (text + rest)[1..] == text[1..] + rest;
      NotPrefix(text + rest, opener);
      ReplaceSkips(text[1..], rest, opener, to);
    }
  }

  lemma {:induction false} ReplaceHit(opener: string, rest: string, to: string)
    requires opener != ""
    ensures ReplaceAll(opener + rest, opener, to) == to + ReplaceAll(rest, opener, to)
  {
    assert (opener + rest)[|opener|..] == rest;
  }

  /** An opener that is not the one looked for is passed over. */
  lemma {:induction false} ReplaceMiss(other: string, rest: string, opener: string, to: string)
    requires other != "" && other[0] == '<' && '<' !in other[1..]
    requires opener != "" && opener[0] == '<'
    requires !StartsWith(other + rest, opener)
    ensures ReplaceAll(other + rest, opener, to) == other + ReplaceAll(rest, opener, to)
  {
    assert (other + rest)[1..] == other[1..] + rest;
    ReplaceSkips(other[1..], rest, opener, to);
    assert other == [other[0]] + other[1..];
  }

  /** The last marker of a text: from its last '<' on. */
  function LastOpen(s: string): string {
    if '<' !in s then "" else if s[0] == '<' && '<' !in s[1..] then s else LastOpen(s[1..])
  }

  lemma {:induction false} LastOpenOf(before: string, last: string)
    requires last != "" && last[0] == '<' && '<' !in last[1..]
    ensures LastOpen(before + last) == last
    decreases |before|
  {
    var s := before + last;
    if before == "" {
      assert s == last;
    } else {
      assert s[1..] == before[1..] + last;
      assert last[0] in s[1..] by {
        assert s[1..][|before| - 1] == last[0];
      }
      LastOpenOf(before[1..], last);
    }
  }

  lemma {:induction false} RetiredFindingSpelling()
    ensures RETIRED_FINDING != "" && RETIRED_FINDING[0] == '<' && '<' !in RETIRED_FINDING[1..]
  {
    var name := "!-- lgtmaybe-resolved-fingerprint:";
    assert RETIRED_FINDING == "<" + name && ("<" + name)[1..] == name;
  }

  lemma {:induction false} RetiredIdentitySpelling()
    ensures RETIRED_IDENTITY != "" && RETIRED_IDENTITY[0] == '<' && '<' !in RETIRED_IDENTITY[1..]
  {
    var name := "!-- lgtmaybe-resolved-identity:";
    assert RETIRED_IDENTITY == "<" + name && ("<" + name)[1..] == name;
  }

  lemma {:induction false} RetiredSpelling()
    ensures RETIRED_FINDING != "" && RETIRED_FINDING[0] == '<' && '<' !in RETIRED_FINDING[1..]
    ensures RETIRED_IDENTITY != "" && RETIRED_IDENTITY[0] == '<' && '<' !in RETIRED_IDENTITY[1..]
  {
    hide RETIRED_FINDING, RETIRED_IDENTITY;
    RetiredFindingSpelling();
    RetiredIdentitySpelling();
  }

  /** No opener of one family starts a text that one of another opens. */
  lemma {:induction false} FamiliesDiffer(rest: string)
    ensures !StartsWith(IDENTITY + rest, FINDING)
    ensures !StartsWith(RETIRED_FINDING + rest, FINDING) && !StartsWith(RETIRED_FINDING + rest, IDENTITY)
    ensures !StartsWith(RETIRED_IDENTITY + rest, FINDING) && !StartsWith(RETIRED_IDENTITY + rest, IDENTITY)
  {
    assert FINDING[14] == 'f' && IDENTITY[14] == 'i' && RETIRED_FINDING[14] == 'r' && RETIRED_IDENTITY[14] == 'r';
    hide FINDING, IDENTITY, RETIRED_FINDING, RETIRED_IDENTITY;
    assert (IDENTITY + rest)[14] == IDENTITY[14];
    assert (RETIRED_FINDING + rest)[14] == RETIRED_FINDING[14];
    assert (RETIRED_IDENTITY + rest)[14] == RETIRED_IDENTITY[14];
  }

  lemma {:induction false} SpaceSplit(s: string) returns (gap: string)
    ensures s == gap + StripLeft(s) && '<' !in gap
    decreases |s|
  {
    if s != "" && IsSpace(s[0]) {
      var more := SpaceSplit(s[1..]);
      gap := [s[0]] + more;
      assert s == [s[0]] + s[1..];
    } else {
      gap := "";
    }
  }

  /** What a marker holds after its opener, up to the text that follows it. */
  lemma {:induction false} MarkerShape(s: string, opener: string) returns (inside: string)
    requires ReadMarker(s, opener).Some?
    ensures '<' !in inside && s == opener + (inside + StripLeft(ReadMarker(s, opener).value.1))
  {
    assert '<' !in CLOSE;
    hide CLOSE, StripLeft, ReadMarker;
    var (id, rest) := ReadMarker(s, opener).value;
    assert '<' !in id;
    var gap := SpaceSplit(rest);
    inside := id + CLOSE + gap;
    assert inside + StripLeft(rest) == id + (CLOSE + rest);
    Assoc4(opener, id, CLOSE, rest);
  }

  /** A block: one marker, or two, and nothing else that opens. */
  lemma {:induction false} BlockShape(s: string) returns (first: string, second: Option<string>)
    requires ReadBlock(s).Some?
    ensures '<' !in first && (second.Some? ==> '<' !in second.value)
    ensures s == FINDING + first + (if second.Some? then IDENTITY + second.value else "")
  {
    hide FINDING, IDENTITY, StripLeft, ReadMarker;
    first := MarkerShape(s, FINDING);
    second := None;
    var middle := StripLeft(ReadMarker(s, FINDING).value.1);
    Assoc(FINDING, first, middle);
    if middle != "" {
      var inside := MarkerShape(middle, IDENTITY);
      assert inside + "" == inside;
      second := Some(inside);
    }
  }

  /** Both openers of a block are replaced, and nothing else. */
  lemma {:induction false} RetiredShape(first: string, second: Option<string>)
    requires '<' !in first && (second.Some? ==> '<' !in second.value)
    ensures RetireStampedIds(FINDING + first + (if second.Some? then IDENTITY + second.value else ""))
         == RETIRED_FINDING + first + (if second.Some? then RETIRED_IDENTITY + second.value else "")
  {
    hide FINDING, IDENTITY, RETIRED_FINDING, RETIRED_IDENTITY, ReplaceAll;
    FindingReplaced(first, second);
    IdentityReplaced(first, second);
  }

  lemma {:induction false} FindingReplaced(first: string, second: Option<string>)
    requires '<' !in first && (second.Some? ==> '<' !in second.value)
    ensures var tail := if second.Some? then IDENTITY + second.value else "";
      ReplaceAll(FINDING + first + tail, FINDING, RETIRED_FINDING) == RETIRED_FINDING + first + tail
  {
    Spelling();
    var text := if second.Some? then second.value else "";
    FamiliesDiffer(text);
    hide FINDING, IDENTITY, RETIRED_FINDING, RETIRED_IDENTITY, ReplaceAll;
    var tail := if second.Some? then IDENTITY + second.value else "";
    TailReplaced(text, FINDING, RETIRED_FINDING);
    if second.Some? {
      ReplaceMiss(IDENTITY, text, FINDING, RETIRED_FINDING);
    }
    Assoc(FINDING, first, tail);
    ReplaceHit(FINDING, first + tail, RETIRED_FINDING);
    ReplaceSkips(first, tail, FINDING, RETIRED_FINDING);
    Assoc(RETIRED_FINDING, first, tail);
  }

  lemma {:induction false} IdentityReplaced(first: string, second: Option<string>)
    requires '<' !in first && (second.Some? ==> '<' !in second.value)
    ensures var tail := if second.Some? then IDENTITY + second.value else "";
      ReplaceAll(RETIRED_FINDING + first + tail, IDENTITY, RETIRED_IDENTITY)
      == RETIRED_FINDING + first + (if second.Some? then RETIRED_IDENTITY + second.value else "")
  {
    Spelling();
    RetiredFindingSpelling();
    var tail := if second.Some? then IDENTITY + second.value else "";
    var tail' := if second.Some? then RETIRED_IDENTITY + second.value else "";
    FamiliesDiffer(first + tail);
    hide FINDING, IDENTITY, RETIRED_FINDING, RETIRED_IDENTITY, ReplaceAll;
    TailReplaced(if second.Some? then second.value else "", IDENTITY, RETIRED_IDENTITY);
    Assoc(RETIRED_FINDING, first, tail);
    ReplaceMiss(RETIRED_FINDING, first + tail, IDENTITY, RETIRED_IDENTITY);
    ReplaceSkips(first, tail, IDENTITY, RETIRED_IDENTITY);
    if second.Some? {
      ReplaceHit(IDENTITY, second.value, RETIRED_IDENTITY);
    }
    Assoc(RETIRED_FINDING, first, tail');
  }

  lemma {:induction false} TailReplaced(text: string, opener: string, to: string)
    requires opener != "" && opener[0] == '<' && '<' !in text
    ensures ReplaceAll(text, opener, to) == text && ReplaceAll("", opener, to) == ""
  {
    ReplaceSkips(text, "", opener, to);
    assert text + "" == text;
  }

  /** A block ends with a marker of one of the two families. */
  lemma {:induction false} BlockEndsActive(s: string)
    requires ReadBlock(s).Some?
    ensures '<' in s && (StartsWith(LastOpen(s), FINDING) || StartsWith(LastOpen(s), IDENTITY))
  {
    Spelling();
    hide FINDING, IDENTITY, ReadBlock, LastOpen;
    var first, second := BlockShape(s);
    if second.Some? {
      LastOpenOf(FINDING + first, IDENTITY + second.value);
      assert (IDENTITY + second.value)[1..] == IDENTITY[1..] + second.value;
    } else {
      assert s == "" + (FINDING + first);
      LastOpenOf("", FINDING + first);
      assert (FINDING + first)[1..] == FINDING[1..] + first;
    }
  }

  lemma {:induction false} LastOpenLater(s: string, i: nat)
    requires i <= |s| && '<' in s[i..]
    ensures LastOpen(s) == LastOpen(s[i..])
    decreases i
  {
    if i == 0 {
      assert s[0..] == s;
    } else {
      assert s[i..] == s[1..][i - 1..];
      assert forall c :: c in s[i..] ==> c in s[1..];
      LastOpenLater(s[1..], i - 1);
    }
  }

  /** A text whose last marker is of a retired family carries no id. */
  lemma {:induction false} RetiredReadsNothing(body: string, i: nat)
    requires i <= |body|
    requires !StartsWith(LastOpen(body), FINDING) && !StartsWith(LastOpen(body), IDENTITY)
    ensures FindBlock(body, i).None?
    decreases |body| - i
  {
    hide ReadBlock, LastOpen, FINDING, IDENTITY;
    if ReadBlock(body[i..]).Some? {
      BlockEndsActive(body[i..]);
      LastOpenLater(body, i);
      assert false;
    }
    if i < |body| {
      RetiredReadsNothing(body, i + 1);
    }
  }

  /** Splitting a comment loses nothing; retiring its block keeps the text before it and leaves no active
      id, so the finding posts again if it comes back. */
  lemma {:induction false} RetiringSilences(body: string)
    ensures var (before, ids) := SplitStampedIds(body);
      && before + ids == body
      && (ids == "" <==> StampedIds(body).None?)
      && StampedIds(before + RetireStampedIds(ids)).None?
      && FindingKeys(before + RetireStampedIds(ids)) == {}
  {
    var (before, ids) := SplitStampedIds(body);
    hide ReadBlock, RetireStampedIds;
    if ids == "" {
      EmptyBlock();
      assert before + RetireStampedIds(ids) == body;
    } else {
      var first, second := BlockShape(ids);
      RetiredShape(first, second);
      RetiredEndsRetired(before, first, second);
      RetiredReadsNothing(before + RetireStampedIds(ids), 0);
    }
  }

  lemma {:induction false} EmptyBlock()
    ensures ReadBlock("").None? && RetireStampedIds("") == ""
  {
    Spelling();
    hide FINDING, IDENTITY;
  }

  lemma {:induction false} LastIsRetired(before: string, opener: string, inside: string)
    requires '<' !in inside && (opener == RETIRED_FINDING || opener == RETIRED_IDENTITY)
    ensures var body := before + (opener + inside);
      !StartsWith(LastOpen(body), FINDING) && !StartsWith(LastOpen(body), IDENTITY)
  {
    RetiredSpelling();
    FamiliesDiffer(inside);
    hide FINDING, IDENTITY, RETIRED_FINDING, RETIRED_IDENTITY, LastOpen;
    assert (opener + inside)[1..] == opener[1..] + inside;
    LastOpenOf(before, opener + inside);
  }

  lemma {:induction false} RetiredEndsRetired(before: string, first: string, second: Option<string>)
    requires '<' !in first && (second.Some? ==> '<' !in second.value)
    ensures var body := before + (RETIRED_FINDING + first + (if second.Some? then RETIRED_IDENTITY + second.value else ""));
      !StartsWith(LastOpen(body), FINDING) && !StartsWith(LastOpen(body), IDENTITY)
  {
    hide FINDING, IDENTITY, RETIRED_FINDING, RETIRED_IDENTITY, LastOpen, StartsWith;
    if second.Some? {
      LastIsRetired(before + (RETIRED_FINDING + first), RETIRED_IDENTITY, second.value);
      Assoc(before, RETIRED_FINDING + first, RETIRED_IDENTITY + second.value);
    } else {
      LastIsRetired(before, RETIRED_FINDING, first);
      assert RETIRED_FINDING + first + "" == RETIRED_FINDING + first;
    }
  }

  // ----- Exactly which comments carry ids -----

  predicate OnlySpace(s: string) {
    forall i :: 0 <= i < |s| ==> IsSpace(s[i])
  }

  lemma {:induction false} BlankIsSpace(s: string)
    ensures StripLeft(s) == "" <==> OnlySpace(s)
  {
    if s != "" {
      BlankIsSpace(s[1..]);
      assert forall i :: 1 <= i < |s| ==> s[i] == s[1..][i - 1];
    }
  }

  /** A block: a fingerprint marker, perhaps an identity marker after whitespace, and whitespace to the end. */
  predicate IsBlock(s: string, ids: Ids, gap: string, end: string) {
    && IsId(ids.fingerprint) && OnlySpace(gap) && OnlySpace(end)
    && match ids.identity
       case None => gap == "" && s == FINDING + ids.fingerprint + CLOSE + end
       case Some(identity) => IsId(identity) && s == FINDING + ids.fingerprint + CLOSE + (gap + (IDENTITY + identity + CLOSE + end))
  }

  lemma {:induction false} SpaceThen(gap: string, rest: string)
    requires OnlySpace(gap) && rest != "" && !IsSpace(rest[0])
    ensures StripLeft(gap + rest) == rest
  {
    if gap == "" {
      assert gap + rest == rest;
    } else {
      assert (gap + rest)[0] == gap[0] && (gap + rest)[1..] == gap[1..] + rest;
      SpaceThen(gap[1..], rest);
    }
  }

  lemma {:induction false} WrittenBlockReads(s: string, ids: Ids, gap: string, end: string)
    requires IsBlock(s, ids, gap, end)
    ensures ReadBlock(s) == Some(ids)
  {
    BlankIsSpace(end);
    Spelling();
    hide FINDING, IDENTITY, CLOSE, ReadMarker, IsId;
    match ids.identity
    case None => ReadsWritten(FINDING, ids.fingerprint, end);
    case Some(identity) =>
      var tail := IDENTITY + identity + CLOSE + end;
      ReadsWritten(FINDING, ids.fingerprint, gap + tail);
      assert tail[0] == IDENTITY[0];
      SpaceThen(gap, tail);
      ReadsWritten(IDENTITY, identity, end);
  }

  lemma {:induction false} ReadIsBlock(s: string) returns (gap: string, end: string)
    requires ReadBlock(s).Some?
    ensures IsBlock(s, ReadBlock(s).value, gap, end)
  {
    var (fingerprint, rest) := ReadMarker(s, FINDING).value;
    hide FINDING, IDENTITY, CLOSE, ReadMarker, IsId;
    BlankIsSpace(rest);
    if StripLeft(rest) == "" {
      gap, end := "", rest;
    } else {
      gap := SpaceBefore(rest);
      var (identity, after) := ReadMarker(StripLeft(rest), IDENTITY).value;
      BlankIsSpace(after);
      end := after;
      assert rest == gap + (IDENTITY + identity + CLOSE + end);
    }
  }

  lemma {:induction false} SpaceBefore(s: string) returns (gap: string)
    ensures OnlySpace(gap) && s == gap + StripLeft(s)
  {
    if s != "" && IsSpace(s[0]) {
      var rest := SpaceBefore(s[1..]);
      gap := [s[0]] + rest;
      assert s == [s[0]] + s[1..];
    } else {
      gap := "";
    }
  }

  /** A comment carries ids exactly when it ends in a block, and they are the ones of the block found furthest to the
      left; one with text after its block carries none. */
  lemma {:induction false} BlockExactly(s: string, ids: Ids)
    ensures ReadBlock(s) == Some(ids) <==> exists gap, end :: IsBlock(s, ids, gap, end)
  {
    if ReadBlock(s) == Some(ids) {
      var gap, end := ReadIsBlock(s);
    }
    if gap, end :| IsBlock(s, ids, gap, end) {
      WrittenBlockReads(s, ids, gap, end);
    }
  }

  // ----- What a reader sees -----

  /** The title and body of a comment. */
  function Heading(f: Finding, severity: string, badge: string): string {
    "**[" + severity + badge + "] " + ModelProse(f.title) + "**" + "\n\n" + ModelProse(f.body)
  }

  /** Its suggestion, as code to apply. */
  function Code(code: string): string {
    "\n\n```suggestion\n" + code + "\n```"
  }

  lemma {:induction false} RenderedParts(f: Finding, severity: string, badge: string, fingerprint: string, identity: string)
    ensures var code := if f.suggestion.Some? then Code(DefangFences(f.suggestion.value)) else "";
      RenderInlineBody(f, severity, badge, fingerprint, identity) == (Heading(f, severity, badge) + code + "\n\n") + Block(fingerprint, identity)
  {
    hide Block, ModelProse, DefangFences;
  }

  /** What comes before its ids is the title and body, and the suggestion if there is one: as code with a fence in it
      exactly where a run of its backticks is longer than three and two more than a multiple of three, that reads as it
      was written but for spaces of no width, and is what was written where that has no fence. */
  lemma {:induction false} CommentShows(f: Finding, severity: string, badge: string, fingerprint: string, identity: string)
      returns (code: string)
    requires IsId(fingerprint) && IsId(identity)
    ensures SplitStampedIds(RenderInlineBody(f, severity, badge, fingerprint, identity)).0
         == Heading(f, severity, badge) + (if f.suggestion.Some? then Code(code) else "") + "\n\n"
    ensures f.suggestion.Some? ==>
      var written := f.suggestion.value;
      && (HasFence(code) <==> OddRun(written)) && Unspaced(code) == Unspaced(written)
      && (!HasFence(written) ==> code == written)
  {
    RenderedParts(f, severity, badge, fingerprint, identity);
    hide Block, Heading, Code, DefangFences, SplitStampedIds, IsId, RenderInlineBody, HasFence, OddRun, Unspaced;
    code := "";
    if f.suggestion.Some? {
      var written := f.suggestion.value;
      code := DefangFences(written);
      FenceLeftExactly(written);
      ReadsAsBefore(written);
      if !HasFence(written) {
        NoFenceNoChange(written);
      }
    }
    LastBlockFound(Heading(f, severity, badge) + (if f.suggestion.Some? then Code(code) else "") + "\n\n", fingerprint, identity);
  }
}
