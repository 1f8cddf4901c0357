/** Printed Harmony calls parse back, and what can stand in the way. */
module HarmonyProofs {
  import opened Common
  import opened Text
  import opened Harmony

  // ---- windows ----------------------------------------------------------------------

  /**
   * For any text: the windows are disjoint, in order and tile the text from the first
   * boundary to its end, and no window yields more than one call.
   */
  lemma WindowsTile<J>(text: string, json: string -> Option<J>)
    ensures var ms := Markers(text, 0);
            && Ordered(ms, 0, |text|)
            && (ms != [] ==> Concat(Windows(text, ms)) == text[ms[0]..])
            && |ParseToolCalls(text, json)| <= |ms|
  {
    hide Markers;
    MarkersAreOrdered(text, 0);
    WindowsConcat(text, Markers(text, 0));
    CollectAtMost(Windows(text, Markers(text, 0)), json);
  }

  function Concat(ws: seq<string>): string { if ws == [] then [] else ws[0] + Concat(ws[1..]) }

  lemma {:induction false} WindowsConcat(text: string, ms: seq<nat>)
    requires Ordered(ms, 0, |text|)
    ensures ms != [] ==> Concat(Windows(text, ms)) == text[ms[0]..]
  {
    if |ms| > 1 {
      WindowsConcat(text, ms[1..]);
      assert text[ms[0]..ms[1]] + text[ms[1]..] == text[ms[0]..];
    } else if |ms| == 1 {
      var last := text[ms[0]..|text|];
      assert last == text[ms[0]..];
      assert Windows(text, ms)[1..] == [] && Windows(text, ms)[0] == last;
      assert last + Concat([]) == last;
    }
  }

  lemma {:induction false} CollectAtMost<J>(ws: seq<string>, json: string -> Option<J>)
    requires forall i :: 0 <= i < |ws| ==> |ws[i]| >= |TO|
    ensures |Collect(ws, json)| <= |ws|
  {
    hide WindowCall;
    if ws != [] { CollectAtMost(ws[1..], json); }
  }

  // ---- boundaries are decided before a token ----------------------------------------

  lemma {:induction false} BreakBefore(x: string, t: string)
    requires t != [] && IsBreak(t[0])
    ensures FindBreak(x + t).Some? && FindBreak(x + t).value <= |x|
    ensures FindBreak(x + t).value == |x| <==> FindBreak(x).None?
    ensures FindBreak(x).Some? ==> FindBreak(x + t) == FindBreak(x)
  {
    if x == [] {
      assert x + t == t;
    } else {
      assert (x + t)[1..] == x[1..] + t;
      BreakBefore(x[1..], t);
    }
  }

  lemma {:induction false} TrimStartBefore(x: string, t: string)
    requires t != [] && !IsWs(t[0])
    ensures TrimStart(x + t) == TrimStart(x) + t
  {
    if x == [] {
      assert x + t == t;
    } else if IsWs(x[0]) {
      assert (x + t)[1..] == x[1..] + t;
      TrimStartBefore(x[1..], t);
    }
  }

  lemma OpensBefore(x: string, t: string, u: string)
    requires StartsWith(t, OPEN) && StartsWith(u, OPEN)
    ensures StartsWith(x + t, OPEN) == StartsWith(x + u, OPEN)
  {
    assert t[0] == t[..2][0] && u[0] == u[..2][0] && t[1] == t[..2][1] && u[1] == u[..2][1];
    assert (x + t)[..2][0] == (x + u)[..2][0] && (x + t)[..2][1] == (x + u)[..2][1];
    assert (x + t)[..2] == (x + u)[..2];
  }

  /** A token starts with a character that breaks a run and is no space. */
  lemma OpenIsBreak(t: string)
    requires StartsWith(t, OPEN)
    ensures t != [] && t[0] == '<' && IsBreak(t[0]) && !IsWs(t[0])
  {
    assert t[..2][0] == '<';
    assert !IsWs('<');
  }

  /** A run breaks at the same place before any two tokens. */
  lemma SameBreak(x: string, t: string, u: string)
    requires StartsWith(t, OPEN) && StartsWith(u, OPEN)
    ensures FindBreak(x + t).Some? && FindBreak(x + u) == FindBreak(x + t) && FindBreak(x + t).value <= |x|
    ensures var e := FindBreak(x + t).value;
            (x + t)[..e] == (x + u)[..e] && (x + t)[e..] == x[e..] + t && (x + u)[e..] == x[e..] + u
  {
    OpenIsBreak(t);
    OpenIsBreak(u);
    hide FindBreak, StartsWith, IsBreak, IsWs;
    BreakBefore(x, t);
    BreakBefore(x, u);
    TakeDrop(x, t, FindBreak(x + t).value);
    TakeDrop(x, u, FindBreak(x + t).value);
  }

  lemma MarkerBefore(x: string, t: string, u: string)
    requires StartsWith(t, OPEN) && StartsWith(u, OPEN)
    ensures StartsWithMarker(x + t) == StartsWithMarker(x + u)
  {
    hide FindBreak;
    OpensBefore(x, t, u);
    SameBreak(x, t, u);
    OpensBefore(x[FindBreak(x + t).value..], t, u);
  }

  /** Whether a `to=` is a boundary never depends on anything past the next token. */
  lemma RealBefore(x: string, t: string, u: string)
    requires StartsWith(t, OPEN) && StartsWith(u, OPEN)
    ensures IsReal(x + t) == IsReal(x + u)
  {
    hide StartsWithMarker, FindBreak;
    OpenIsBreak(t);
    OpenIsBreak(u);
    SameBreak(x, t, u);
    var y := x[FindBreak(x + t).value..];
    TrimStartBefore(y, t);
    TrimStartBefore(y, u);
    MarkerBefore(TrimStart(y), t, u);
  }

  /** Two texts over whose boundary no `to=` can reach. */
  predicate Apart(x: string, t: string) {
    x == [] || t == [] || (t[0] != 'o' && t[0] != '=') || (x[|x| - 1] != 't' && x[|x| - 1] != 'o')
  }

  lemma NoStraddle(x: string, t: string)
    requires x != [] && !StartsWith(x, TO) && Apart(x, t)
    ensures !StartsWith(x + t, TO)
  {
    if |x| >= |TO| {
      assert (x + t)[..|TO|] == x[..|TO|];
    } else if |x + t| >= |TO| {
      assert (x + t)[..|TO|][|x|] == t[0];
      assert (x + t)[..|TO|][|x| - 1] == x[|x| - 1];
    }
  }

  lemma {:induction false} FindBefore(x: string, t: string)
    requires Apart(x, t)
    ensures Find(x + t, TO) == if Find(x, TO).Some? then Find(x, TO) else Later(|x|, Find(t, TO))
  {
    if x == [] {
      assert x + t == t;
      NothingStarts();
    } else {
      assert (x + t)[1..] == x[1..] + t;
      if StartsWith(x, TO) {
        assert (x + t)[..|TO|] == x[..|TO|];
      } else {
        NoStraddle(x, t);
        FindBefore(x[1..], t);
      }
    }
  }

  lemma NothingStarts()
    ensures Find([], TO) == None
  {}

  /** One `to=`, found where it is. */
  lemma MarkersStep(s: string, k: nat, base: nat)
    requires Find(s, TO) == Some(k)
    ensures k + |TO| <= |s|
    ensures Markers(s, base)
            == (if IsReal(s[k + |TO|..]) then [base + k] else []) + Markers(s[k + |TO|..], base + k + |TO|)
  {
    hide IsReal, Find;
  }

  /** The boundaries of a text that ends in a token, with anything after it. */
  lemma {:induction false} MarkersSplit(x: string, token: string, t: string, base: nat)
    requires StartsWith(token, OPEN) && Find(token, TO).None? && token[|token| - 1] == '>'
    ensures Markers(x + token + t, base) == Markers(x + token, base) + Markers(t, base + |x| + |token|)
    decreases |x|
  {
    hide IsReal, Find, Markers;
    var s, y := x + token + t, x + token;
    assert token[0] == token[..2][0];
    FindBefore(y, t);
    FindBefore(x, token);
    match Find(x, TO) {
      case Some(k) =>
        var x' := x[k + |TO|..];
        assert y[k + |TO|..] == x' + token && s[k + |TO|..] == x' + token + t;
        MarkersStep(s, k, base);
        MarkersStep(y, k, base);
        RealSplit(x', token, t);
        MarkersSplit(x', token, t, base + k + |TO|);
      case None =>
        NoToNoMarkers(y, base);
        MarkersShift(t, s, |y|, base);
    }
  }

  lemma RealSplit(x: string, token: string, t: string)
    requires StartsWith(token, OPEN)
    ensures IsReal(x + token + t) == IsReal(x + token)
  {
    hide IsReal;
    assert x + token + t == x + (token + t) && (token + t)[..2] == token[..2];
    RealBefore(x, token, token + t);
  }

  /** Boundaries found past a text that has none. */
  lemma MarkersShift(t: string, s: string, n: nat, base: nat)
    requires n <= |s| && s[n..] == t && Find(s, TO) == Later(n, Find(t, TO))
    ensures Markers(s, base) == Markers(t, base + n)
  {
    hide IsReal, Find;
    match Find(t, TO) {
      case None =>
      case Some(k) => TailSlice(s, n, k + |TO|, |s| - n);
    }
  }

  lemma NoToNoMarkers(s: string, base: nat)
    requires Find(s, TO).None?
    ensures Markers(s, base) == []
  {}

  // ---- printed calls ----------------------------------------------------------------

  /**
   * One call as the model writes it: any text, the recipient, the rest of the header, JSON;
   * and whether the model closed it, which it may not have when it was cut off.
   */
  datatype Written = Written(glue: string, recipient: string, header: string, payload: string, closed: bool)

  function Close(w: Written): string { if w.closed then CALL else [] }

  /** From the recipient to the closing token. */
  function Body(w: Written): string { w.recipient + w.header + MESSAGE + w.payload + Close(w) }

  function PrintCall(w: Written): string { w.glue + TO + Body(w) }

  function PrintCalls(ws: seq<Written>, end: string): string {
    if ws == [] then end else PrintCall(ws[0]) + PrintCalls(ws[1..], end)
  }

  function Meaning<J>(w: Written, json: string -> Option<J>): seq<Call<J>> {
    var j := json(Trim(w.payload));
    if j.Some? then [Call(StripPrefix(w.recipient, NAMESPACE), j.value)] else []
  }

  function MeaningOfAll<J>(ws: seq<Written>, json: string -> Option<J>): seq<Call<J>> {
    if ws == [] then [] else Meaning(ws[0], json) + MeaningOfAll(ws[1..], json)
  }

  predicate NoCall(s: string) { Find(s, CALL).None? }

  /** Where a text's first boundary is, or its end. */
  function FirstMarker(s: string): (n: nat)
    ensures n <= |s|
  {
    MarkersAreOrdered(s, 0);
    if Markers(s, 0) == [] then |s| else Markers(s, 0)[0]
  }

  /**
   * A call's header is well written when its recipient is one run of characters, the first
   * message token is the header's, and it is the first boundary in its own text: the text
   * before it may hold a `to=` that is none.
   */
  predicate HeaderOk(w: Written) {
    && FindBreak(w.recipient).None? && StripPrefix(w.recipient, NAMESPACE) != []
    && w.header != [] && IsBreak(w.header[0])
    && Find(TO + w.recipient + w.header + MESSAGE, MESSAGE) == Some(|TO + w.recipient + w.header|)
    && Markers(PrintCall(w), 0) != [] && FirstMarker(PrintCall(w)) == |w.glue|
  }

  /**
   * And a call is, when besides its header is the only boundary in its own text. The
   * payload may hold calls, messages, braces and `to=` that is no boundary.
   */
  predicate WrittenOk(w: Written) { HeaderOk(w) && Markers(Body(w), 0) == [] }

  /** What may follow a call: anything if it is closed, otherwise the end of the reply. */
  predicate MayFollow(w: Written, t: string) { w.closed || t == [] }

  lemma CallHasNoTo()
    ensures Find(CALL, TO).None? && StartsWith(CALL, OPEN)
  {
    assert CALL[..2] == OPEN;
    NoCharNoFind(CALL, TO, 't');
  }

  lemma {:induction false} NoCharNoFind(s: string, pat: string, c: char)
    requires pat != [] && pat[0] == c && c !in s
    ensures Find(s, pat).None?
  {
    if |s| >= |pat| { assert s[..|pat|][0] == s[0]; }
    if s != [] { NoCharNoFind(s[1..], pat, c); }
  }

  /** The same boundaries, counted from elsewhere. */
  ghost predicate Shifted(ms: seq<nat>, d: nat, ms': seq<nat>) {
    |ms'| == |ms| && forall i :: 0 <= i < |ms| ==> ms'[i] == d + ms[i]
  }

  lemma {:induction false} MarkersRebase(s: string, a: nat, d: nat)
    ensures Shifted(Markers(s, a), d, Markers(s, d + a))
    decreases |s|
  {
    hide IsReal, Find;
    match Find(s, TO)
    case None =>
    case Some(k) => MarkersRebase(s[k + |TO|..], a + k + |TO|, d);
  }

  /** A text's first boundary is a `to=` that is one, and the others are what is past it. */
  lemma {:induction false} FirstIsReal(s: string, base: nat)
    requires Markers(s, base) != []
    ensures var k := Markers(s, base)[0] - base;
            && 0 <= k && k + |TO| <= |s| && IsReal(s[k + |TO|..])
            && Markers(s, base) == [base + k] + Markers(s[k + |TO|..], base + k + |TO|)
    decreases |s|
  {
    hide IsReal, Find, Markers;
    if Find(s, TO).None? { NoToNoMarkers(s, base); }
    var k := Find(s, TO).value;
    var next := base + k + |TO|;
    MarkersStep(s, k, base);
    if !IsReal(s[k + |TO|..]) {
      FirstIsReal(s[k + |TO|..], next);
      DropDrop(s, k + |TO|, Markers(s[k + |TO|..], next)[0] - next + |TO|);
    }
  }

  /** The boundaries of a printed call on its own: its header, and those in its text. */
  lemma OwnMarkers(w: Written, base: nat)
    requires HeaderOk(w)
    ensures IsReal(Body(w))
    ensures Markers(PrintCall(w), base) == [base + |w.glue|] + Markers(Body(w), base + |w.glue| + |TO|)
  {
    hide IsReal, Markers, Find, Body;
    MarkersRebase(PrintCall(w), 0, base);
    FirstIsReal(PrintCall(w), base);
    assert PrintCall(w)[|w.glue| + |TO|..] == Body(w);
  }

  /** And of one in a reply: those, and those of what follows. */
  lemma CallMarkers(w: Written, t: string, base: nat)
    requires HeaderOk(w) && MayFollow(w, t)
    ensures Markers(PrintCall(w) + t, base)
            == [base + |w.glue|] + Markers(Body(w), base + |w.glue| + |TO|) + Markers(t, base + |PrintCall(w)|)
  {
    hide IsReal, Markers, Find, HeaderOk;
    OwnMarkers(w, base);
    if w.closed {
      var x := w.glue + TO + w.recipient + w.header + MESSAGE + w.payload;
      CallHasNoTo();
      assert PrintCall(w) == x + CALL;
      MarkersSplit(x, CALL, t, base);
    } else {
      assert PrintCall(w) + t == PrintCall(w);
      NothingHasNoMarkers(base + |PrintCall(w)|);
    }
  }

  lemma NothingHasNoMarkers(base: nat)
    ensures Markers([], base) == []
  {
    NothingStarts();
  }

  // ---- windows of printed calls -----------------------------------------------------

  lemma OrderedShift(ms: seq<nat>, d: nat, ms': seq<nat>, end: nat)
    requires Ordered(ms, 0, end) && Shifted(ms, d, ms')
    ensures Ordered(ms', 0, d + end)
  {}

  lemma SliceShift(p: string, t: string, from: nat, to: nat)
    requires from <= to <= |t|
    ensures (p + t)[|p| + from..|p| + to] == t[from..to]
  {}

  lemma ShiftedTail(ms: seq<nat>, d: nat, ms': seq<nat>)
    requires Shifted(ms, d, ms') && ms != []
    ensures Shifted(ms[1..], d, ms'[1..])
  {}

  lemma OrderedTail(ms: seq<nat>, end: nat)
    requires Ordered(ms, 0, end) && ms != []
    ensures Ordered(ms[1..], 0, end)
  {}

  lemma {:induction false} WindowsShift(p: string, t: string, ms: seq<nat>, ms': seq<nat>)
    requires Ordered(ms, 0, |t|) && Shifted(ms, |p|, ms')
    ensures Ordered(ms', 0, |p + t|) && Windows(p + t, ms') == Windows(t, ms)
  {
    OrderedShift(ms, |p|, ms', |t|);
    if ms != [] {
      ShiftedTail(ms, |p|, ms');
      OrderedTail(ms, |t|);
      WindowsShift(p, t, ms[1..], ms'[1..]);
      var end := if |ms| > 1 then ms[1] else |t|;
      SliceShift(p, t, ms[0], end);
      FirstOfWindows(t, ms);
      FirstOfWindows(p + t, ms');
    }
  }

  /** The first window, and the rest of them. */
  lemma FirstOfWindows(text: string, ms: seq<nat>)
    requires Ordered(ms, 0, |text|) && ms != []
    ensures var end := if |ms| > 1 then ms[1] else |text|;
            Ordered(ms[1..], 0, |text|) && ms[0] <= end <= |text|
            && Windows(text, ms) == [text[ms[0]..end]] + Windows(text, ms[1..])
  {}

  /** The window a call opens when it holds no other boundary. */
  function WholeWindow(w: Written, t: string): string { TO + Body(w) + t[..FirstMarker(t)] }

  /**
   * When a call's window is whole: exactly when its text holds no boundary besides its
   * header. Otherwise it is cut short at the first one there is.
   */
  lemma FirstWindowExact(w: Written, t: string)
    requires HeaderOk(w) && MayFollow(w, t)
    ensures var text := PrintCall(w) + t;
            && Ordered(Markers(text, 0), 0, |text|) && Markers(text, 0) != []
            && var first := Windows(text, Markers(text, 0))[0];
               && (first == WholeWindow(w, t) <==> Markers(Body(w), 0) == [])
               && (Markers(Body(w), 0) != [] ==> first == TO + Body(w)[..FirstMarker(Body(w))])
  {
    hide Markers, Body, HeaderOk, FirstMarker, PrintCall, Ordered;
    var text := PrintCall(w) + t;
    CallMarkers(w, t, 0);
    MarkersAreOrdered(text, 0);
    FirstWindowEnd(w, t);
    if Markers(Body(w), 0) == [] {
      WholeSlice(w, t);
    } else {
      CutSlice(w, t);
    }
  }

  /** Where the first window ends: at a boundary in the call, or the next one, or the end. */
  lemma FirstWindowEnd(w: Written, t: string)
    requires HeaderOk(w) && MayFollow(w, t)
    ensures var text := PrintCall(w) + t;
            var start := |w.glue| + |TO|;
            var end := if Markers(Body(w), 0) != [] then start + FirstMarker(Body(w)) else |PrintCall(w)| + FirstMarker(t);
            && Ordered(Markers(text, 0), 0, |text|) && Markers(text, 0) != [] && |w.glue| <= end <= |text|
            && Windows(text, Markers(text, 0))[0] == text[|w.glue|..end]
  {
    hide Markers, Body, HeaderOk;
    var text := PrintCall(w) + t;
    CallMarkers(w, t, 0);
    MarkersAreOrdered(text, 0);
    MarkersRebase(Body(w), 0, |w.glue| + |TO|);
    MarkersRebase(t, 0, |PrintCall(w)|);
    SecondMarker(w, t);
  }

  lemma SecondMarker(w: Written, t: string)
    requires HeaderOk(w) && MayFollow(w, t)
    ensures var ms := Markers(PrintCall(w) + t, 0);
            && ms != [] && ms[0] == |w.glue|
            && (if |ms| > 1 then ms[1] else |PrintCall(w) + t|)
               == if Markers(Body(w), 0) != [] then |w.glue| + |TO| + FirstMarker(Body(w))
                  else |PrintCall(w)| + FirstMarker(t)
  {
    hide Markers, Body, HeaderOk, PrintCall;
    CallMarkers(w, t, 0);
    MarkersRebase(Body(w), 0, |w.glue| + |TO|);
    MarkersRebase(t, 0, |PrintCall(w)|);
  }

  lemma WholeSlice(w: Written, t: string)
    ensures |w.glue| <= |PrintCall(w)| + FirstMarker(t) <= |PrintCall(w) + t|
    ensures (PrintCall(w) + t)[|w.glue|..|PrintCall(w)| + FirstMarker(t)] == WholeWindow(w, t)
  {
    hide FirstMarker, Body;
    var n := |Body(w)| + FirstMarker(t);
    CallSlice(w, t, n);
    assert (Body(w) + t)[..n] == Body(w) + t[..FirstMarker(t)];
    assert TO + (Body(w) + t[..FirstMarker(t)]) == WholeWindow(w, t);
  }

  lemma CutSlice(w: Written, t: string)
    requires Markers(Body(w), 0) != []
    ensures var end := |w.glue| + |TO| + FirstMarker(Body(w));
            && |w.glue| <= end <= |PrintCall(w) + t|
            && (PrintCall(w) + t)[|w.glue|..end] == TO + Body(w)[..FirstMarker(Body(w))]
            && TO + Body(w)[..FirstMarker(Body(w))] != WholeWindow(w, t)
  {
    var n := FirstMarker(Body(w));
    assert n < |Body(w)| by { MarkersAreOrdered(Body(w), 0); }
    hide Markers, FirstMarker, Body;
    CallSlice(w, t, n);
    TakeDrop(Body(w), t, n);
    assert |TO + Body(w)[..n]| < |WholeWindow(w, t)|;
  }

  lemma CallSlice(w: Written, t: string, n: nat)
    requires n <= |Body(w) + t|
    ensures |w.glue| + |TO| + n <= |PrintCall(w) + t|
    ensures (PrintCall(w) + t)[|w.glue|..|w.glue| + |TO| + n] == TO + (Body(w) + t)[..n]
  {
    hide Body;
    assert PrintCall(w) + t == w.glue + (TO + (Body(w) + t));
  }

  // ---- the call in a window ---------------------------------------------------------

  lemma {:induction false} BreakAfter(x: string, t: string)
    requires FindBreak(x).None? && t != [] && IsBreak(t[0])
    ensures FindBreak(x + t) == Some(|x|)
  {
    BreakBefore(x, t);
  }

  /** The closing token does not overlap itself, so the last one is the call's own. */
  lemma {:induction false} LastCall(x: string, gap: string)
    requires NoCall(gap)
    ensures FindLast(x + CALL + gap, CALL) == Some(|x|)
  {
    var s := x + CALL + gap;
    if x == [] {
      assert s[..|CALL|] == CALL;
      NoneLater(CALL[1..], gap);
      assert s[1..] == CALL[1..] + gap;
    } else {
      assert s[1..] == x[1..] + CALL + gap;
      LastCall(x[1..], gap);
    }
  }

  /** No closing token starts in a proper tail of one, or in a text without one. */
  lemma {:induction false} NoneLater(tail: string, gap: string)
    requires '<' !in tail && NoCall(gap)
    ensures FindLast(tail + gap, CALL).None?
  {
    var s := tail + gap;
    if |s| >= |CALL| { assert s[..|CALL|][0] == s[0]; }
    if tail != [] {
      assert s[1..] == tail[1..] + gap;
      NoneLater(tail[1..], gap);
    } else {
      assert s == gap;
      if gap != [] { NoneLater([], gap[1..]); assert [] + gap[1..] == gap[1..]; }
    }
  }

  /** What the text after a call may hold for its JSON to be read whole. */
  predicate Quiet(w: Written, gap: string) {
    NoCall(gap) && (!w.closed ==> gap == [] && NoCall(w.payload))
  }

  /** The recipient is read whole. */
  lemma RecipientIsRead(w: Written, gap: string)
    requires FindBreak(w.recipient).None? && w.header != [] && IsBreak(w.header[0])
    ensures var afterTo := (TO + Body(w) + gap)[|TO|..];
            FindBreak(afterTo) == Some(|w.recipient|) && afterTo[..|w.recipient|] == w.recipient
  {
    hide FindBreak, Close, IsBreak;
    var after := w.header + (MESSAGE + w.payload + Close(w) + gap);
    assert after[0] == w.header[0];
    BreakAfter(w.recipient, after);
    assert (TO + Body(w) + gap)[|TO|..] == w.recipient + after;
  }

  /** Where the JSON starts, and what is from there on. */
  lemma MessageIsFound(w: Written, gap: string)
    requires Find(TO + w.recipient + w.header + MESSAGE, MESSAGE) == Some(|TO + w.recipient + w.header|)
    ensures var window := TO + Body(w) + gap;
            var at := |TO + w.recipient + w.header|;
            && Find(window, MESSAGE) == Some(at) && at + |MESSAGE| <= |window|
            && window[at + |MESSAGE|..] == w.payload + (Close(w) + gap)
  {
    hide Find, Close;
    var window := TO + Body(w) + gap;
    var start := TO + w.recipient + w.header;
    assert window == (start + MESSAGE) + (w.payload + (Close(w) + gap));
    assert Agree(start + MESSAGE, window, |start| + |MESSAGE|);
    FindLocal(start + MESSAGE, window, MESSAGE, |start|);
  }

  /** The JSON is the payload, up to the call's own closing token or to the end. */
  lemma PayloadIsRead(w: Written, gap: string)
    requires Quiet(w, gap)
    ensures var value := w.payload + (Close(w) + gap);
            var end := match FindLast(value, CALL) case Some(e) => e case None => |value|;
            end == |w.payload| && value[..end] == w.payload
  {
    hide FindLast, Find;
    if w.closed {
      LastCall(w.payload, gap);
      assert w.payload + (CALL + gap) == w.payload + CALL + gap;
    } else {
      NoneLater([], w.payload);
      assert w.payload + ([] + gap) == [] + w.payload;
    }
  }

  /** A window gives its call: the recipient, and the JSON up to its own closing token. */
  lemma WindowGivesCall<J>(w: Written, gap: string, json: string -> Option<J>)
    requires WrittenOk(w) && Quiet(w, gap)
    ensures var window := TO + Body(w) + gap;
            |window| >= |TO|
            && (if WindowCall(window, json).Some? then [WindowCall(window, json).value] else []) == Meaning(w, json)
  {
    hide Find, FindLast, Markers, Trim, FindBreak, FirstMarker, Quiet, StripPrefix;
    RecipientIsRead(w, gap);
    MessageIsFound(w, gap);
    PayloadIsRead(w, gap);
    hide Body, Close;
  }

  /** One printed call is read, and the rest of the reply is read as if it stood alone. */
  lemma CallIsRead<J>(w: Written, t: string, json: string -> Option<J>)
    requires WrittenOk(w) && MayFollow(w, t) && Quiet(w, t[..FirstMarker(t)])
    ensures ParseToolCalls(PrintCall(w) + t, json) == Meaning(w, json) + ParseToolCalls(t, json)
  {
    hide Markers, WindowCall, Meaning, Body, FirstMarker, HeaderOk, Quiet;
    var text := PrintCall(w) + t;
    var ms, after := Markers(text, 0), Markers(t, |PrintCall(w)|);
    CallMarkers(w, t, 0);
    NoneInside(w);
    FirstWindowExact(w, t);
    MarkersAreOrdered(t, 0);
    MarkersRebase(t, 0, |PrintCall(w)|);
    WindowsShift(PrintCall(w), t, Markers(t, 0), after);
    assert ms == [|w.glue|] + after && ms[1..] == after;
    WindowGivesCall(w, t[..FirstMarker(t)], json);
    assert Windows(text, ms) == [WholeWindow(w, t)] + Windows(t, Markers(t, 0));
    assert Windows(text, ms)[1..] == Windows(t, Markers(t, 0));
  }

  lemma NoneInside(w: Written)
    requires Markers(Body(w), 0) == []
    ensures forall base: nat :: Markers(Body(w), base) == []
  {
    hide Markers, Body;
    forall base: nat ensures Markers(Body(w), base) == [] { MarkersRebase(Body(w), 0, base); }
  }

  // ---- whole replies ----------------------------------------------------------------

  /** Text after the last call, which opens none and closes none. */
  predicate EndOk(end: string) { Markers(end, 0) == [] && NoCall(end) }

  /**
   * Calls that can be printed one after the other: each well written, no closing token
   * between two, and only the last one cut off, if nothing follows it.
   */
  predicate AllOk(ws: seq<Written>, end: string) {
    && (forall i :: 0 <= i < |ws| ==> WrittenOk(ws[i]))
    && (forall i :: 0 < i < |ws| ==> NoCall(ws[i].glue))
    && (forall i :: 0 <= i < |ws| && !ws[i].closed ==> i == |ws| - 1 && end == [] && NoCall(ws[i].payload))
  }

  /** The first of such calls, and the rest. */
  lemma AllOkTail(ws: seq<Written>, end: string)
    requires AllOk(ws, end) && ws != []
    ensures WrittenOk(ws[0]) && AllOk(ws[1..], end) && MayFollow(ws[0], PrintCalls(ws[1..], end))
    ensures |ws| > 1 ==> NoCall(ws[1].glue)
    ensures !ws[0].closed ==> |ws| == 1 && end == [] && NoCall(ws[0].payload)
  {
    hide WrittenOk, NoCall;
  }

  /** The text between a call and the next header. */
  lemma GapIs(ws: seq<Written>, end: string)
    requires AllOk(ws, end) && EndOk(end)
    ensures PrintCalls(ws, end)[..FirstMarker(PrintCalls(ws, end))] == if ws == [] then end else ws[0].glue
  {
    hide Markers, Body, Find, AllOk, HeaderOk, MayFollow;
    var text := PrintCalls(ws, end);
    if ws == [] {
      assert text[..|text|] == end;
    } else {
      AllOkTail(ws, end);
      CallMarkers(ws[0], PrintCalls(ws[1..], end), 0);
      GlueFirst(ws[0], PrintCalls(ws[1..], end));
    }
  }

  lemma GlueFirst(w: Written, t: string)
    ensures (PrintCall(w) + t)[..|w.glue|] == w.glue
  {
    hide Body;
  }

  lemma FollowOk(ws: seq<Written>, end: string)
    requires AllOk(ws, end) && EndOk(end) && ws != []
    ensures var t := PrintCalls(ws[1..], end); Quiet(ws[0], t[..FirstMarker(t)])
  {
    hide WrittenOk, Find, Markers, AllOk, PrintCall;
    AllOkTail(ws, end);
    GapIs(ws[1..], end);
  }

  /**
   * The round trip: printed calls parse back in order, each with its own recipient and
   * JSON (and without a call where the JSON does not parse), whatever closing tokens,
   * messages or braces their payloads hold, and the last one even when it was cut off.
   */
  lemma {:induction false} CallsRoundTrip<J>(ws: seq<Written>, end: string, json: string -> Option<J>)
    requires AllOk(ws, end) && EndOk(end)
    ensures ParseToolCalls(PrintCalls(ws, end), json) == MeaningOfAll(ws, json)
  {
    hide WindowCall, AllOk, EndOk, WrittenOk, Quiet, MayFollow, FirstMarker, Meaning, PrintCall, Markers, Find;
    if ws == [] {
      EndHasNoCall(end, json);
    } else {
      AllOkTail(ws, end);
      FollowOk(ws, end);
      CallIsRead(ws[0], PrintCalls(ws[1..], end), json);
      CallsRoundTrip(ws[1..], end, json);
    }
  }

  lemma EndHasNoCall<J>(end: string, json: string -> Option<J>)
    requires EndOk(end)
    ensures ParseToolCalls(end, json) == []
  {}

  // ---- which texts hold no other boundary -------------------------------------------

  /** Where the headers of printed calls stand. */
  function Headers(ws: seq<Written>, base: nat): seq<nat> {
    if ws == [] then [] else [base + |ws[0].glue|] + Headers(ws[1..], base + |PrintCall(ws[0])|)
  }

  /** Calls with good headers, whatever their texts hold. */
  predicate HeadersOk(ws: seq<Written>, end: string) {
    && (forall i :: 0 <= i < |ws| ==> HeaderOk(ws[i]))
    && (forall i :: 0 <= i < |ws| && !ws[i].closed ==> i == |ws| - 1 && end == [])
    && Markers(end, 0) == []
  }

  lemma FollowHeader(ws: seq<Written>, end: string)
    requires HeadersOk(ws, end) && ws != []
    ensures HeaderOk(ws[0]) && HeadersOk(ws[1..], end) && MayFollow(ws[0], PrintCalls(ws[1..], end))
  {
    hide HeaderOk, Markers;
  }

  /** How many boundaries there are over and above the headers. */
  function Extra(ws: seq<Written>): nat {
    if ws == [] then 0 else |Markers(Body(ws[0]), 0)| + Extra(ws[1..])
  }

  /** There are as many more boundaries as headers as the calls' own texts hold; and if none, they are the headers. */
  lemma {:induction false} MarkersCounted(ws: seq<Written>, end: string, base: nat)
    requires HeadersOk(ws, end)
    ensures |Markers(PrintCalls(ws, end), base)| == |ws| + Extra(ws)
    ensures Extra(ws) == 0 ==> Markers(PrintCalls(ws, end), base) == Headers(ws, base)
  {
    hide HeadersOk, HeaderOk, MayFollow, PrintCall, Body, Markers;
    if ws == [] {
      EndHasNone(end, base);
    } else {
      var inside := Markers(Body(ws[0]), base + |ws[0].glue| + |TO|);
      FollowHeader(ws, end);
      CallMarkers(ws[0], PrintCalls(ws[1..], end), base);
      assert |inside| == |Markers(Body(ws[0]), 0)| by { MarkersRebase(Body(ws[0]), 0, base + |ws[0].glue| + |TO|); }
      MarkersCounted(ws[1..], end, base + |PrintCall(ws[0])|);
    }
  }

  lemma EndHasNone(end: string, base: nat)
    requires HeadersOk([], end)
    ensures Markers(end, base) == []
  {
    hide Markers;
    MarkersRebase(end, 0, base);
  }

  lemma {:induction false} NoExtra(ws: seq<Written>)
    ensures Extra(ws) == 0 <==> forall i :: 0 <= i < |ws| ==> Markers(Body(ws[i]), 0) == []
  {
    hide Markers, Body;
    if ws != [] { NoExtra(ws[1..]); }
  }

  lemma {:induction false} HeadersCount(ws: seq<Written>, base: nat)
    ensures |Headers(ws, base)| == |ws|
  {
    hide PrintCall;
    if ws != [] { HeadersCount(ws[1..], base + |PrintCall(ws[0])|); }
  }

  /**
   * The headers are the only boundaries of a whole text exactly when each call, looked at
   * alone, holds no boundary besides its header.
   */
  lemma {:induction false} HeadersAreMarkersExactly(ws: seq<Written>, end: string)
    requires HeadersOk(ws, end)
    ensures Markers(PrintCalls(ws, end), 0) == Headers(ws, 0)
            <==> forall i :: 0 <= i < |ws| ==> Markers(Body(ws[i]), 0) == []
  {
    hide HeadersOk, Markers, Body, Headers;
    MarkersCounted(ws, end, 0);
    HeadersCount(ws, 0);
    NoExtra(ws);
  }

  // ---- what breaks it ---------------------------------------------------------------

  /**
   * A payload whose last run of characters after a `to=` reaches its closing token holds
   * a boundary, whatever is in the run (`x"}` say); so the call's window ends there or
   * before it, and never at the call's own end.
   */
  lemma TailRunIsMarker(w: Written, before: string, run: string, t: string)
    requires w.closed && w.payload == before + TO + run && FindBreak(run).None?
    ensures Markers(Body(w), 0) != []
    ensures HeaderOk(w) ==>
              (MarkersAreOrdered(PrintCall(w) + t, 0);
               var ms := Markers(PrintCall(w) + t, 0);
               ms != [] && Windows(PrintCall(w) + t, ms)[0] == TO + Body(w)[..FirstMarker(Body(w))])
  {
    hide Markers, HeaderOk, Body, Windows, FirstMarker, FindBreak, Ordered, PrintCall;
    TailRunInside(w, before, run);
    if HeaderOk(w) { FirstWindowExact(w, t); }
  }

  lemma TailRunInside(w: Written, before: string, run: string)
    requires w.closed && w.payload == before + TO + run && FindBreak(run).None?
    ensures Markers(Body(w), 0) != []
  {
    hide IsReal, Markers, FindBreak;
    var x := w.recipient + w.header + MESSAGE + before;
    CallHasNoTo();
    assert Body(w) == x + (TO + (run + CALL));
    RunIsReal(run, CALL);
    MarkerInside(x, run + CALL, 0);
  }

  lemma RunIsReal(run: string, token: string)
    requires FindBreak(run).None? && StartsWith(token, OPEN)
    ensures IsReal(run + token)
  {
    hide StartsWithMarker;
    OpenIsBreak(token);
    BreakAfter(run, token);
    assert (run + token)[|run|..] == token;
    assert TrimStart(token) == token;
    TokenStarts(token);
  }

  lemma TokenStarts(token: string)
    requires StartsWith(token, OPEN)
    ensures StartsWithMarker(token)
  {}

  lemma ToStartsTo(t: string)
    ensures Find(TO + t, TO) == Some(0)
  {
    assert (TO + t)[..|TO|] == TO;
  }

  /** A real `to=` anywhere in a text is found. */
  lemma {:induction false} MarkerInside(x: string, t: string, base: nat)
    requires IsReal(t)
    ensures Markers(x + (TO + t), base) != []
    decreases |x|
  {
    hide IsReal, Find;
    var s := x + (TO + t);
    FindBefore(x, TO + t);
    ToStartsTo(t);
    match Find(x, TO) {
      case Some(k) =>
        assert s[k + |TO|..] == x[k + |TO|..] + (TO + t);
        MarkerInside(x[k + |TO|..], t, base + k + |TO|);
      case None =>
        assert s[|x| + |TO|..] == t;
    }
  }
}
