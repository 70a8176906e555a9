/** core/comment.py: the hidden markers of a comment. Removing every one from model prose, and defanging
    its fences. */
module Markers {
  import opened Text
  import opened DiffParse
  import opened Snap

  /** text.replace(old, new) */
  function ReplaceAll(text: string, from: string, to: string): string
    requires from != ""
    decreases |text|
  {
    if text == "" then ""
    else if StartsWith(text, from) then to + ReplaceAll(text[|from|..], from, to)
    else [text[0]] + ReplaceAll(text[1..], from, to)
  }

  function DefangFences(text: string): string {
    ReplaceAll(text, "```", "`\U{200b}`\U{200b}`")
  }

  // ----- strip_markers -----

  /** Where the first "-->" of the text ends. */
  function CloseEnd(text: string): (end: Option<nat>)
    ensures end.Some? ==> 3 <= end.value <= |text|
    decreases |text|
  {
    if text == "" then None
    else if StartsWith(text, "-->") then Some(3)
    else
      match CloseEnd(text[1..])
      case None => None
      case Some(end) => Some(end + 1)
  }

  predicate ClosesAt(text: string, k: nat) {
    k <= |text| && StartsWith(text[k..], "-->")
  }

  lemma {:induction false} CloseEndIsFirst(text: string)
    ensures CloseEnd(text).Some? ==> ClosesAt(text, CloseEnd(text).value - 3)
    ensures forall k: nat :: ClosesAt(text, k) ==> CloseEnd(text).Some? && CloseEnd(text).value <= k + 3
    decreases |text|
  {
    if text != "" && !StartsWith(text, "-->") {
      CloseEndIsFirst(text[1..]);
      var later := CloseEnd(text[1..]);
      if later.Some? {
        assert text[1..][later.value - 3..] == text[later.value + 1 - 3..];
      }
      forall k: nat | ClosesAt(text, k) ensures CloseEnd(text).Some? && CloseEnd(text).value <= k + 3 {
        assert k > 0 by {
          assert text[0..] == text;
        }
        assert text[k..] == text[1..][k - 1..];
        assert ClosesAt(text[1..], k - 1);
      }
    } else if text != "" {
      assert text[0..] == text;
    }
  }

  /** The opening of a marker at the start of the text: "<!--", whitespace, "lgtmaybe". */
  predicate Opens(text: string) {
    StartsWith(text, "<!--") && StartsWith(StripLeft(text[4..]), "lgtmaybe")
  }

  /** The length of the marker the text starts with: to the first "-->" after the opening. */
  function MarkerLength(text: string): (n: Option<nat>)
    ensures n.Some? ==> 0 < n.value <= |text|
  {
    if !Opens(text) then None
    else
      var afterName := StripLeft(text[4..])[8..];
      StripLeftShorter(text[4..]);
      match CloseEnd(afterName)
      case None => None
      case Some(end) => Some(|text| - |afterName| + end)
  }

  /** One pass of the substitution, left to right. */
  function RemoveMarkers(text: string): string
    decreases |text|
  {
    if text == "" then ""
    else if MarkerLength(text).Some? then RemoveMarkers(text[MarkerLength(text).value..])
    else [text[0]] + RemoveMarkers(text[1..])
  }

  /** No marker starts anywhere in the text. */
  predicate MarkerFree(text: string) {
    forall i :: 0 <= i < |text| ==> MarkerLength(text[i..]).None?
  }

  /** A pass shortens any text it changes, and leaves alone exactly the texts that carry no marker. */
  lemma {:induction false} PassShortens(text: string)
    ensures |RemoveMarkers(text)| <= |text|
    ensures RemoveMarkers(text) == text <==> |RemoveMarkers(text)| == |text|
    ensures RemoveMarkers(text) == text <==> MarkerFree(text)
    decreases |text|
  {
    hide MarkerLength;
    if text != "" {
      var n := MarkerLength(text);
      if n.Some? {
        PassShortens(text[n.value..]);
        assert text[0..] == text;
      } else {
        PassShortens(text[1..]);
        assert text == [text[0]] + text[1..];
        forall i | 0 <= i < |text| && MarkerFree(text[1..]) ensures MarkerLength(text[i..]).None? {
          if i == 0 {
            assert text[0..] == text;
          } else {
            assert text[i..] == text[1..][i - 1..];
          }
        }
        forall i | 0 <= i < |text[1..]| && MarkerFree(text) ensures MarkerLength(text[1..][i..]).None? {
          assert text[1..][i..] == text[i + 1..];
        }
      }
    }
  }

  /** Passes until one changes nothing. */
  function Stripped(text: string): string
    decreases |text|
  {
    PassShortens(text);
    if RemoveMarkers(text) == text then text else Stripped(RemoveMarkers(text))
  }

  /** Stripping ends, and ends with no marker left: one spliced together by removing another goes too. A
      text without markers is returned as it was, so stripping twice is stripping once. */
  lemma {:induction false} StrippedIsMarkerFree(text: string)
    ensures MarkerFree(Stripped(text))
    ensures MarkerFree(text) ==> Stripped(text) == text
    ensures Stripped(Stripped(text)) == Stripped(text)
    decreases |text|
  {
    PassShortens(text);
    if RemoveMarkers(text) != text {
      StrippedIsMarkerFree(RemoveMarkers(text));
    }
  }

  method StripMarkers(text: string) returns (stripped: string)
    ensures stripped == Stripped(text)
  {
    stripped := text;
    var pass := RemoveMarkers(stripped);
    while pass != stripped
      invariant pass == RemoveMarkers(stripped) && Stripped(stripped) == Stripped(text)
      decreases |stripped|
    {
      PassShortens(stripped);
      stripped := pass;
      pass := RemoveMarkers(stripped);
    }
  }

  function ModelProse(text: string): string {
    DefangFences(Stripped(text))
  }
}
