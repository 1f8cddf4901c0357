/**
 * Harmony's tool calls: which `to=` are call boundaries, and what is read from the window
 * each of them opens. JSON itself is a partial function the parser is given.
 */
module Harmony {
  import opened Common
  import opened Text

  const TO := "to="
  const OPEN := "<|"
  const MESSAGE := "<|message|>"
  const CALL := "<|call|>"
  const NAMESPACE := "functions."

  datatype Call<J> = Call(name: string, arguments: J)

  predicate IsBreak(c: char) { IsWs(c) || c == '<' }

  predicate IsWordChar(c: char) {
    'a' <= c <= 'z' || 'A' <= c <= 'Z' || '0' <= c <= '9' || c == '_'
  }

  /** The first whitespace or `<` ahead. */
  function FindBreak(s: string): (r: Option<nat>)
    ensures r.Some? ==> r.value < |s|
  {
    if s == [] then None
    else if IsBreak(s[0]) then Some(0)
    else Later(1, FindBreak(s[1..]))
  }

  predicate AllWord(s: string) { forall i :: 0 <= i < |s| ==> IsWordChar(s[i]) }

  /** `starts_with_harmony_marker`: a token, or one bare word right before a token. */
  predicate StartsWithMarker(rest: string) {
    StartsWith(rest, OPEN) ||
    match FindBreak(rest)
    case None => false
    case Some(end) => end > 0 && AllWord(rest[..end]) && StartsWith(rest[end..], OPEN)
  }

  /** Whether what follows a `to=` makes it a call boundary. */
  predicate IsReal(afterTo: string) {
    match FindBreak(afterTo)
    case None => false
    case Some(end) => StartsWithMarker(TrimStart(afterTo[end..]))
  }

  /** The boundaries ahead, as positions counted from `base`. */
  function Markers(s: string, base: nat): seq<nat>
    decreases |s|
  {
    match Find(s, TO)
    case None => []
    case Some(k) =>
      var after := s[k + |TO|..];
      (if IsReal(after) then [base + k] else []) + Markers(after, base + k + |TO|)
  }

  /** Positions in order from `from` up to `end`, none inside another's `to=`. */
  predicate Ordered(ms: seq<nat>, from: nat, end: nat) {
    && (forall i :: 0 <= i < |ms| ==> from <= ms[i] <= end - |TO|)
    && (forall i, j :: 0 <= i < j < |ms| ==> ms[i] + |TO| <= ms[j])
  }

  /** The text from each boundary to the next. */
  function Windows(text: string, ms: seq<nat>): (ws: seq<string>)
    requires Ordered(ms, 0, |text|)
    ensures |ws| == |ms| && forall i :: 0 <= i < |ws| ==> |ws[i]| >= |TO|
  {
    if ms == [] then []
    else
      var end := if |ms| > 1 then ms[1] else |text|;
      [text[ms[0]..end]] + Windows(text, ms[1..])
  }

  /** The last place a pattern occurs. */
  function FindLast(s: string, pat: string): (r: Option<nat>)
    ensures r.Some? ==> r.value + |pat| <= |s|
  {
    if s == [] then if StartsWith(s, pat) then Some(0) else None
    else
      var later := FindLast(s[1..], pat);
      if later.Some? then Later(1, later)
      else if StartsWith(s, pat) then Some(0) else None
  }

  function StripPrefix(s: string, prefix: string): string {
    if StartsWith(s, prefix) then s[|prefix|..] else s
  }

  /** The call a window holds, if its name, its message and its JSON are all there. */
  function WindowCall<J>(window: string, json: string -> Option<J>): Option<Call<J>>
    requires |window| >= |TO|
  {
    var afterTo := window[|TO|..];
    match FindBreak(afterTo)
    case None => None
    case Some(nameEnd) =>
      var name := StripPrefix(afterTo[..nameEnd], NAMESPACE);
      if name == [] then None
      else
        match Find(window, MESSAGE)
        case None => None
        case Some(at) =>
          var value := window[at + |MESSAGE|..];
          var end := match FindLast(value, CALL) case Some(e) => e case None => |value|;
          match json(Trim(value[..end]))
          case None => None
          case Some(arguments) => Some(Call(name, arguments))
  }

  function Collect<J>(windows: seq<string>, json: string -> Option<J>): seq<Call<J>>
    requires forall i :: 0 <= i < |windows| ==> |windows[i]| >= |TO|
  {
    if windows == [] then []
    else
      var c := WindowCall(windows[0], json);
      (if c.Some? then [c.value] else []) + Collect(windows[1..], json)
  }

  /** Boundaries lie in the text, in order. */
  lemma {:induction false} MarkersAreOrdered(s: string, base: nat)
    ensures Ordered(Markers(s, base), base, base + |s|)
    decreases |s|
  {
    hide IsReal, Find;
    match Find(s, TO)
    case None =>
    case Some(k) =>
      var next := base + k + |TO|;
      MarkersAreOrdered(s[k + |TO|..], next);
      OrderedAfter(Markers(s[k + |TO|..], next), base + k, base + |s|);
  }

  lemma OrderedAfter(ms: seq<nat>, first: nat, end: nat)
    requires Ordered(ms, first + |TO|, end) && first + |TO| <= end
    ensures Ordered([first] + ms, first, end)
  {}

  /** `parse_tool_calls`. */
  function ParseToolCalls<J>(text: string, json: string -> Option<J>): seq<Call<J>> {
    MarkersAreOrdered(text, 0);
    Collect(Windows(text, Markers(text, 0)), json)
  }
}
