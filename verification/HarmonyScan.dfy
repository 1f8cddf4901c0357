/** The two loops of `parse_tool_calls`. */
module HarmonyScan {
  import opened Common
  import opened Text
  import opened Harmony
  import opened HarmonyProofs

  /** The first loop: every real boundary, in order. */
  method FindMarkers(text: string) returns (markers: seq<nat>)
    ensures markers == Markers(text, 0) && Ordered(markers, 0, |text|)
  {
    hide Markers, Find, IsReal;
    markers := [];
    var from := 0;
    assert text[0..] == text;
    var rel := Find(text, TO);
    while rel.Some?
      invariant from <= |text| && rel == Find(text[from..], TO)
      invariant Markers(text, 0) == markers + Markers(text[from..], from)
      decreases |text| - from
    {
      var start := from + rel.value;
      MarkersStep(text[from..], rel.value, from);
      TailSlice(text, from, rel.value + |TO|, |text| - from);
      var afterTo := text[start + |TO|..];
      Regroup2(markers, [start], Markers(afterTo, start + |TO|));
      if IsReal(afterTo) { markers := markers + [start]; }
      from := start + |TO|;
      rel := Find(text[from..], TO);
    }
    NoToNoMarkers(text[from..], from);
    assert markers + [] == markers;
    MarkersAreOrdered(text, 0);
  }

  lemma Regroup2<T>(a: seq<T>, b: seq<T>, c: seq<T>)
    ensures a + (b + c) == (a + b) + c && a + ([] + c) == a + c
  {}

  /** `parse_tool_calls`: then the call in each window, where there is one. */
  method ParseCalls<J>(text: string, json: string -> Option<J>) returns (calls: seq<Call<J>>)
    ensures calls == ParseToolCalls(text, json)
  {
    hide Markers, WindowCall;
    var markers := FindMarkers(text);
    ghost var windows := Windows(text, markers);
    calls := [];
    for i := 0 to |markers|
      invariant calls + Collect(windows[i..], json) == ParseToolCalls(text, json)
    {
      var end := if i + 1 < |markers| then markers[i + 1] else |text|;
      WindowAt(text, markers, i);
      var call := WindowCall(text[markers[i]..end], json);
      assert windows[i..][0] == windows[i] && windows[i..][1..] == windows[i + 1..];
      if call.Some? {
        Regroup2(calls, [call.value], Collect(windows[i + 1..], json));
        calls := calls + [call.value];
      } else {
        Regroup2(calls, [], Collect(windows[i + 1..], json));
      }
    }
    assert calls + [] == calls;
  }

  lemma {:induction false} WindowAt(text: string, ms: seq<nat>, i: nat)
    requires Ordered(ms, 0, |text|) && i < |ms|
    ensures Windows(text, ms)[i] == text[ms[i]..if i + 1 < |ms| then ms[i + 1] else |text|]
  {
    if i > 0 { WindowAt(text, ms[1..], i - 1); }
  }
}
