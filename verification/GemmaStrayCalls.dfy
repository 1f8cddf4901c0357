/** Whole replies in which a call's last value holds the delimiter. */
module GemmaStrayCalls {
  import opened Common
  import opened Text
  import opened Gemma
  import opened GemmaPrint
  import opened GemmaProofs
  import opened GemmaScanProofs
  import opened GemmaStrayProofs

  // ---- a call up to its last value --------------------------------------------------

  function Last(w: Written): Pair
    requires w.pairs != []
  {
    w.pairs[|w.pairs| - 1]
  }

  /** A call that is written well but for its last value, which is delimited and holds anything. */
  predicate LastIsFree(w: Written) {
    OpeningOk(w.opening) && AllSep(w.close) && FreePairs(w.pairs)
  }

  predicate FreePairs(ps: seq<Pair>) {
    && ps != [] && (forall i :: 0 <= i < |ps| - 1 ==> PairOk(ps[i]))
    && var p := ps[|ps| - 1];
       AllSep(p.pad) && AllWs(p.gap) && AllWs(p.tail) && KeyOk(p.key) && p.arg.Delimited?
  }

  /** Arguments up to the last one's value. */
  function Front(ps: seq<Pair>): string
    requires ps != []
  {
    if |ps| == 1 then BeforeValue(ps[0]) else PrintPair(ps[0]) + "," + Front(ps[1..])
  }

  lemma {:induction false} FrontIsPrinted(ps: seq<Pair>)
    requires ps != []
    ensures PrintPairs(ps) == Front(ps) + PrintArg(ps[|ps| - 1].arg) + ps[|ps| - 1].tail
  {
    hide PrintArg, PrintKey;
    if |ps| > 1 {
      hide PrintPair;
      var last := ps[|ps| - 1];
      FrontIsPrinted(ps[1..]);
      Regroup4(PrintPair(ps[0]) + ",", Front(ps[1..]), PrintArg(last.arg), last.tail);
    }
  }

  lemma {:induction false} FrontIsScanned(ps: seq<Pair>, x: string)
    requires FreePairs(ps)
    ensures ScanBody(Front(ps) + x, BODY_START) == Later(|Front(ps)|, ScanBody(x, VALUE_START))
  {
    hide PairOk, PrintPair, ScanBody, KeyOk, Through, BeforeValue;
    if |ps| == 1 {
      TakesToValue(ps[0], x);
    } else {
      FrontIsScanned(ps[1..], x);
      MoreFollows(ps[0], Front(ps[1..]) + x);
      RegroupComma(PrintPair(ps[0]), Front(ps[1..]), x);
    }
  }

  /** The arguments, with the value that is read for the last one. */
  function WithValue(ps: seq<Pair>, v: string): seq<Pair>
    requires ps != []
  {
    ps[..|ps| - 1] + [ps[|ps| - 1].(arg := Delimited(v))]
  }

  lemma {:induction false} FrontIsRead(ps: seq<Pair>, x: string, v: string, rest: string, m: Arguments)
    requires FreePairs(ps) && TrimStart(x) == x && ScanValue(x) == (Str(v), rest)
    ensures ParseKv(Front(ps) + x, m) == ParseKv(rest, Meaning(WithValue(ps, v), m))
  {
    hide PairOk, PrintPair, ParseKv, KeyOk, BeforeValue, ScanValue, PrintKey;
    var p := ps[0];
    if |ps| == 1 {
      LastIsRead(p, x, v, rest, m);
      assert WithValue(ps, v)[1..] == [] && WithValue(ps, v)[0] == p.(arg := Delimited(v));
    } else {
      var more := Front(ps[1..]) + x;
      var m' := m[p.key.key := ArgValue(p.arg)];
      RegroupComma(PrintPair(p), Front(ps[1..]), x);
      CommaStarts(more);
      OkIsReadable(p);
      PairIsRead(p, "," + more, m);
      SeparatorsAreSkipped(",", more, m');
      FrontIsRead(ps[1..], x, v, rest, m');
      assert WithValue(ps, v)[1..] == WithValue(ps[1..], v) && WithValue(ps, v)[0] == p;
    }
  }

  lemma OkIsReadable(p: Pair)
    requires PairOk(p)
    ensures PairReadable(p)
  {}

  lemma LastIsRead(p: Pair, x: string, v: string, rest: string, m: Arguments)
    requires AllSep(p.pad) && AllWs(p.gap) && KeyOk(p.key) && TrimStart(x) == x && ScanValue(x) == (Str(v), rest)
    ensures ParseKv(BeforeValue(p) + x, m) == ParseKv(rest, m[p.key.key := Str(v)])
  {
    hide ParseKv, KeyOk, ScanValue, PrintKey;
    KeyIsRead(p.pad, p.key, p.gap, x, Str(v), rest, m);
  }

  // ---- the whole reply --------------------------------------------------------------

  /** What is read from a text is added to what was read before. */
  lemma {:induction false} ParseKvMerges(s: string, m: Arguments)
    ensures ParseKv(s, m) == m + ParseKv(s, map[])
    decreases |s|
  {
    hide TrimSeparators, ScanKey, AfterColon, ScanValue;
    var t := TrimSeparators(s);
    if t != [] && ScanKey(t).Some? && AfterColon(ScanKey(t).value.1).Some? && ScanKey(t).value.0 != [] {
      var key := ScanKey(t).value.0;
      var (v, rest) := ScanValue(AfterColon(ScanKey(t).value.1).value);
      ParseKvMerges(rest, m[key := v]);
      ParseKvMerges(rest, map[key := v]);
      assert map[][key := v] == map[key := v];
      assert m + (map[key := v] + ParseKv(rest, map[])) == m[key := v] + ParseKv(rest, map[]);
    }
  }

  /** What follows a call's last value. */
  function Follows(w: Written, end: string): string
    requires w.pairs != []
  {
    Last(w).tail + w.close + "}" + end
  }

  /** The calls read after the one whose body `s` begins in. */
  function CallsAfter(s: string, st: Scan): seq<Call> {
    match ScanBody(s, st)
    case None => []
    case Some(n) => ParseCalls(s[n..])
  }

  lemma SplitSeen(body: string, front: string, x: string, n: nat)
    requires body == front + x && 0 < n <= |x|
    ensures body[..|front| + n - 1] == front + x[..n - 1] && body[|front| + n..] == x[n..]
  {
    TakePast(front, x, n - 1);
    DropPast(front, x, n);
  }

  /** A call that ends, where its end is known. */
  lemma EndedCall(s: string, name: string, at: nat, body: string, n: nat)
    requires FindOpen(s) == Some((name, at)) && s[at..] == body && ScanBody(body, BODY_START) == Some(n)
    ensures n > 0 && ParseCalls(s) == [Call(name, ParseKv(body[..n - 1], map[]))] + ParseCalls(body[n..])
  {
    hide FindOpen, ScanBody, ParseKv, ParseCalls, NextCall;
    NextEnded(s, name, at, n);
    CutTail(s, at, body, n);
    FirstCall(s, Call(name, ParseKv(body[..n - 1], map[])), body[n..]);
  }

  /** And one that never does. */
  lemma OpenCall(s: string, name: string, at: nat, body: string)
    requires FindOpen(s) == Some((name, at)) && s[at..] == body && ScanBody(body, BODY_START).None?
    ensures ParseCalls(s) == [Call(name, ParseKv(body, map[]))]
  {
    hide FindOpen, ScanBody, ParseKv;
  }

  lemma BodyIsSeen(s: string, name: string, at: nat, front: string, x: string)
    requires FindOpen(s) == Some((name, at)) && s[at..] == front + x
    requires ScanBody(front + x, BODY_START) == Later(|front|, ScanBody(x, VALUE_START))
    ensures ParseCalls(s) == [Call(name, ParseKv(front + Seen(x, VALUE_START), map[]))] + CallsAfter(x, VALUE_START)
  {
    hide FindOpen, ScanBody, ParseKv, ParseCalls;
    match ScanBody(x, VALUE_START)
    case None => OpenCall(s, name, at, front + x);
    case Some(n) =>
      EndedCall(s, name, at, front + x, |front| + n);
      SplitSeen(front + x, front, x, n);
  }

  /** What the parser reads from a delimiter on is a string. */
  lemma SeenIsString(v: string, t: string)
    ensures TrimStart(SeenValue(v, t)) == SeenValue(v, t) && ScanValue(SeenValue(v, t)).0.Str?
  {
    hide Seen, ScanBody, ScanValue, ClosingDelim;
    SeenFromDelim(v, t);
    ScanFromDelim(Seen(v + STR_DELIM + t, IN_VALUE));
    assert SeenValue(v, t)[0] == '<';
  }

  /**
   * What becomes of a call whose last value holds anything at all: the arguments before it
   * are read as written, the value is what is read of what the scanner leaves of it, and
   * what that leaves is read for more arguments; calls are then sought after its end.
   */
  lemma LastValueIsRead(w: Written, end: string)
    requires LastIsFree(w)
    ensures var v, t := Last(w).arg.v, Follows(w, end);
            var (value, rest) := ScanValue(SeenValue(v, t));
            && value.Str?
            && ParseCalls(PrintCall(w) + end)
               == [Call(w.opening.name, Meaning(WithValue(w.pairs, value.s), map[]) + ParseKv(rest, map[]))]
                  + CallsAfter(STR_DELIM + (v + STR_DELIM + t), VALUE_START)
  {
    hide FindOpen, ScanBody, ParseKv, ParseCalls, FreePairs, Meaning, PrintPairs, WithValue, ScanValue, Seen, Front, PrintOpening;
    hide CallsAfter;
    assert w.pairs != [] && Last(w).arg.Delimited? by { FreeLast(w); }
    var v, t := Last(w).arg.v, Follows(w, end);
    var x, front := STR_DELIM + (v + STR_DELIM + t), Front(w.pairs);
    var pre := PrintOpening(w.opening);
    LastIsPrinted(w, end);
    OpeningIsFound(w.opening, front + x);
    FrontIsScanned(w.pairs, x);
    BodyIsSeen(PrintCall(w) + end, w.opening.name, |pre|, front, x);
    SeenIsString(v, t);
    var (value, rest) := ScanValue(SeenValue(v, t));
    FrontIsRead(w.pairs, SeenValue(v, t), value.s, rest, map[]);
    ParseKvMerges(rest, Meaning(WithValue(w.pairs, value.s), map[]));
  }

  lemma LastIsPrinted(w: Written, end: string)
    requires LastIsFree(w)
    ensures w.pairs != [] && Last(w).arg.Delimited?
    ensures PrintCall(w) + end
            == PrintOpening(w.opening) + (Front(w.pairs) + (STR_DELIM + (Last(w).arg.v + STR_DELIM + Follows(w, end))))
  {
    hide FreePairs, PrintPairs, Front, PrintOpening;
    FreeLast(w);
    FrontIsPrinted(w.pairs);
    var p := Last(w);
    RegroupLast(PrintOpening(w.opening), Front(w.pairs), p.arg.v, p.tail, w.close, end);
  }

  lemma RegroupLast(opening: string, front: string, v: string, tail: string, close: string, end: string)
    ensures opening + (front + (STR_DELIM + v + STR_DELIM) + tail) + close + "}" + end
            == opening + (front + (STR_DELIM + (v + STR_DELIM + (tail + close + "}" + end))))
  {
    var s := STR_DELIM + v + STR_DELIM;
    var t := tail + close + "}" + end;
    assert opening + (front + s + tail) + close + "}" + end == opening + (front + (s + t));
    assert s + t == STR_DELIM + (v + STR_DELIM + t);
  }

  lemma FreeLast(w: Written)
    requires FreePairs(w.pairs)
    ensures w.pairs != [] && Last(w).arg.Delimited?
  {}

  lemma {:induction false} TrimEndKeepsFirst(s: string)
    requires s != [] && !IsWs(s[0])
    ensures TrimEnd(s) != [] && TrimEnd(s)[0] == s[0]
  {
    if IsWs(s[|s| - 1]) { TrimEndKeepsFirst(s[..|s| - 1]); }
  }

  // ---- cut short --------------------------------------------------------------------

  /**
   * A value with one delimiter in it whose text after it closes a brace too many: the call
   * ends there, its value is what is before the delimiter, what is between the delimiter
   * and that brace is read for more arguments, and the rest of the value as a new reply.
   */
  lemma StrayIsCut(w: Written, a: string, b: string, end: string)
    requires LastIsFree(w) && Last(w).arg.v == StrayValue(a, b) && NoDelim(a) && NoDelim(b)
    requires Through(b + STR_DELIM, OUT_VALUE).None?
    ensures var n := ScanBody(b + STR_DELIM, OUT_VALUE);
            && n.Some? && 0 < n.value <= |b|
            && ParseCalls(PrintCall(w) + end)
               == [Call(w.opening.name, Meaning(WithValue(w.pairs, a), map[]) + ParseKv(b[..n.value - 1], map[]))]
                  + ParseCalls(b[n.value..] + STR_DELIM + Follows(w, end))
  {
    hide Through, ScanBody, NoDelim, ScanValue, SeenValue, ParseCalls, ParseKv, LastIsFree, Meaning, WithValue, Follows;
    hide PrintCall, CallsAfter, StrayValue;
    assert w.pairs != [] && Last(w).arg.Delimited? by { FreeHasLast(w); }
    var t := Follows(w, end);
    StrayCutIsA(a, b, t);
    var n := ScanBody(b + STR_DELIM, OUT_VALUE).value;
    CallsAfterCut(a, b, t, n);
    LastValueIsRead(w, end);
  }

  lemma CallsAfterCut(a: string, b: string, t: string, n: nat)
    requires n <= |b| && ScanBody(StrayValue(a, b) + STR_DELIM + t, IN_VALUE) == Some(|a| + |STR_DELIM| + n)
    ensures CallsAfter(STR_DELIM + (StrayValue(a, b) + STR_DELIM + t), VALUE_START)
            == ParseCalls(b[n..] + STR_DELIM + t)
  {
    hide ScanBody, ParseCalls;
    ThroughDelim(StrayValue(a, b) + STR_DELIM + t, VALUE_START);
    CutRest(a, b, t, n);
  }

  lemma FreeHasLast(w: Written)
    requires LastIsFree(w)
    ensures w.pairs != [] && Last(w).arg.Delimited?
  {}

  lemma CutRest(a: string, b: string, t: string, n: nat)
    requires n <= |b|
    ensures (STR_DELIM + (StrayValue(a, b) + STR_DELIM + t))[|STR_DELIM| + (|a| + |STR_DELIM| + n)..]
            == b[n..] + STR_DELIM + t
  {
    var pre := STR_DELIM + a + STR_DELIM;
    assert STR_DELIM + (StrayValue(a, b) + STR_DELIM + t) == pre + (b + STR_DELIM + t);
    DropPast(pre, b + STR_DELIM + t, n);
    TakeDrop(b, STR_DELIM + t, n);
    assert b + STR_DELIM + t == b + (STR_DELIM + t);
  }

  const CODE := Written(Opening("", "", "A", ""), [Pair("", BareKey("k"), "", Delimited("x" + STR_DELIM + " }"), "")], "")

  /** Concretely: code with a delimiter and then a closing brace in it comes back cut. */
  lemma CodeIsCut()
    ensures ParseCalls(PrintCall(CODE)) != [] && ParseCalls(PrintCall(CODE))[0] == Call("A", map["k" := Str("x")])
    ensures MeaningOf(CODE) == Call("A", map["k" := Str("x" + STR_DELIM + " }")])
  {
    hide ParseCalls, FindOpen, Through, NoDelim, LastIsFree, PrintCall, ParseKv, Meaning, ScanBody;
    CodeIsFree();
    NoDelimWithout("x");
    NoDelimWithout(" }");
    StrayIsCut(CODE, "x", " }", "");
    assert PrintCall(CODE) + "" == PrintCall(CODE);
    OnePairMeans(CODE.pairs[0]);
    OnePairMeans(CODE.pairs[0].(arg := Delimited("x")));
    assert CODE.pairs == [CODE.pairs[0]];
    assert WithValue(CODE.pairs, "x") == [CODE.pairs[0].(arg := Delimited("x"))];
    SeparatorsAreNothing(" ", map[]);
    assert map["k" := Str("x")] + map[] == map["k" := Str("x")];
  }

  lemma CodeIsFree()
    ensures LastIsFree(CODE) && Through(" }" + STR_DELIM, OUT_VALUE).None?
    ensures ScanBody(" }" + STR_DELIM, OUT_VALUE) == Some(2) && " }"[..1] == " "
  {
    hide Through, NoDelim;
    NoDelimWithout("k");
    assert FindOpen("").None? by { NothingOpens(); }
    CutAtSecond();
    EndsOrGoesOn(" }" + STR_DELIM, OUT_VALUE);
  }

  lemma OnePairMeans(p: Pair)
    ensures Meaning([p], map[]) == map[p.key.key := ArgValue(p.arg)]
  {
    hide ArgValue;
    assert [p][1..] == [];
    assert map[][p.key.key := ArgValue(p.arg)] == map[p.key.key := ArgValue(p.arg)];
  }

  lemma NothingOpens()
    ensures FindOpen("").None?
  {}

  lemma CutAtSecond()
    ensures ScanBody(" }" + STR_DELIM, OUT_VALUE) == Some(2) && " }"[..1] == " "
  {
    var s := " }" + STR_DELIM;
    NotDelim(s);
    assert s[1..] == "}" + STR_DELIM;
    BraceCloses(OUT_VALUE, STR_DELIM);
  }

  // ---- left open --------------------------------------------------------------------

  /** A last value that does not end the call, and after which its brace is not seen. */
  predicate LeftOpen(v: string, t: string) {
    AfterValue(v).Some? && ScanBody(t, AfterValue(v).value).None?
  }

  /**
   * Then the call is the only one read; its value is the one written or one running on to
   * a later delimiter; and whatever is left of the reply is read for more arguments.
   */
  lemma StrayDelimiterFallback(w: Written, end: string)
    requires LastIsFree(w) && !StructuralInside(Last(w).arg.v) && LeftOpen(Last(w).arg.v, Follows(w, end))
    ensures var (value, rest) := StrayRead(Last(w).arg.v, Follows(w, end));
            ParseCalls(PrintCall(w) + end)
            == [Call(w.opening.name, Meaning(WithValue(w.pairs, value), map[]) + ParseKv(rest, map[]))]
  {
    hide Through, ScanBody, ScanValue, ParseCalls, ParseKv, LastIsFree, Meaning, WithValue, Follows, PrintCall;
    hide StructuralInside, StrayRead;
    assert w.pairs != [] && Last(w).arg.Delimited? by { FreeHasLast(w); }
    var v, t := Last(w).arg.v, Follows(w, end);
    LastValueIsRead(w, end);
    SeenWhole(v, t);
    WholeIsRead(v, t);
    OpenSeesNoEnd(v, t);
  }

  lemma OpenSeesNoEnd(v: string, t: string)
    requires LeftOpen(v, t)
    ensures ScanBody(STR_DELIM + (v + STR_DELIM + t), VALUE_START).None?
  {
    hide Through, ScanBody;
    ThroughDelim(v + STR_DELIM + t, VALUE_START);
    DelimJoins(v, t, AfterValue(v).value);
    ScanJoined(v + STR_DELIM, t, IN_VALUE);
  }

  // ---- what the rest of the reply adds ----------------------------------------------

  /** The key a colon after the brace makes of the text before it. */
  function BogusKey(end: string): string {
    match Find("}" + end, ":")
    case None => []
    case Some(p) => Trim(("}" + end)[..p])
  }

  lemma {:induction false} FindColon(s: string)
    ensures Find(s, ":").Some? <==> ':' in s
    ensures Find(s, ":").Some? ==> s[Find(s, ":").value] == ':'
  {
    if s != [] {
      assert s[..1][0] == s[0];
      FindColon(s[1..]);
    }
  }

  lemma BogusKeyIsRead(end: string)
    requires ':' in end
    ensures BogusKey(end) != [] && BogusKey(end)[0] == '}'
    ensures ScanKey("}" + end).Some? && ScanKey("}" + end).value.0 == BogusKey(end)
    ensures AfterColon(ScanKey("}" + end).value.1).Some?
  {
    hide Find, TrimEnd;
    var s := "}" + end;
    FindColon(s);
    assert s[1..] == end;
    var p := Find(s, ":").value;
    assert s[..p][0] == '}';
    TrimEndKeepsFirst(s[..p]);
    assert s[p..][0] == ':';
  }

  /** A pair that is read first is among what is read. */
  lemma FirstIsThere(s: string)
    requires TrimSeparators(s) != [] && ScanKey(TrimSeparators(s)).Some?
    requires var (key, after) := ScanKey(TrimSeparators(s)).value; key != [] && AfterColon(after).Some?
    ensures ScanKey(TrimSeparators(s)).value.0 in ParseKv(s, map[])
  {
    hide TrimSeparators, ScanKey, AfterColon, ScanValue;
    var (key, after) := ScanKey(TrimSeparators(s)).value;
    var (v, rest) := ScanValue(AfterColon(after).value);
    ParseKvMerges(rest, map[][key := v]);
  }

  /** What stands after the brace adds an argument exactly when it holds a colon. */
  lemma LeftoverExact(end: string)
    ensures ParseKv("}" + end, map[]) == map[] <==> ':' !in end
    ensures ':' in end ==>
              BogusKey(end) != [] && BogusKey(end)[0] == '}' && BogusKey(end) in ParseKv("}" + end, map[])
  {
    hide ScanKey, AfterColon, ScanValue, BogusKey;
    var s := "}" + end;
    assert TrimSeparators(s) == s;
    if ':' in end {
      BogusKeyIsRead(end);
      FirstIsThere(s);
    } else {
      NoColonNoKey(s);
    }
  }

  lemma NoColonNoKey(s: string)
    requires ':' !in s && s != [] && !IsQuote(s[0])
    ensures ScanKey(s).None?
  {
    hide Find;
    FindColon(s);
  }

  /**
   * With no delimiter after it such a value is recovered, and the call is read as it was
   * written exactly when no colon follows either: the text before one becomes a key.
   */
  lemma StrayIsRecovered(w: Written, end: string)
    requires LastIsFree(w) && !StructuralInside(Last(w).arg.v) && LeftOpen(Last(w).arg.v, Follows(w, end))
    requires NoDelim(end)
    ensures ParseCalls(PrintCall(w) + end) == [Call(w.opening.name, Meaning(w.pairs, map[]) + ParseKv("}" + end, map[]))]
    ensures BogusKey(end) !in Meaning(w.pairs, map[]) ==>
              (ParseCalls(PrintCall(w) + end) == [MeaningOf(w)] <==> ':' !in end)
  {
    hide ParseKv, ParseCalls, StructuralInside, BogusKey, NoDelim, Meaning, PrintCall, LastIsFree, LeftOpen, Follows;
    assert w.pairs != [] && Last(w).arg.Delimited? by { FreeHasLast(w); }
    StrayIsReadWhole(w, end);
    LeftoverExact(end);
    if BogusKey(end) !in Meaning(w.pairs, map[]) {
      LeftoverShows(Meaning(w.pairs, map[]), ParseKv("}" + end, map[]), BogusKey(end), ':' in end);
    }
  }

  /** Adding some arguments changes none exactly when there are none to add, or only known ones. */
  lemma LeftoverShows(m: Arguments, more: Arguments, key: string, any: bool)
    requires (more == map[] <==> !any) && (any ==> key in more) && key !in m
    ensures m + more == m <==> !any
  {
    if any {
      assert key in m + more;
    } else {
      assert m + more == m;
    }
  }

  lemma StrayIsReadWhole(w: Written, end: string)
    requires LastIsFree(w) && !StructuralInside(Last(w).arg.v) && LeftOpen(Last(w).arg.v, Follows(w, end))
    requires NoDelim(end)
    ensures ParseCalls(PrintCall(w) + end) == [Call(w.opening.name, Meaning(w.pairs, map[]) + ParseKv("}" + end, map[]))]
  {
    hide ParseKv, ParseCalls, StructuralInside, NoDelim, Meaning, PrintCall, LastIsFree, LeftOpen, Follows, WithValue;
    assert w.pairs != [] && Last(w).arg.Delimited? by { FreeHasLast(w); }
    StrayDelimiterFallback(w, end);
    FollowsNoDelim(w, end);
    SeparatorsThenBrace(w, end);
    SameValue(w);
  }

  lemma SeparatorsThenBrace(w: Written, end: string)
    requires LastIsFree(w)
    ensures w.pairs != [] && ParseKv(Follows(w, end), map[]) == ParseKv("}" + end, map[])
  {
    hide ParseKv, KeyOk, OpeningOk, PairOk;
    var sep := Last(w).tail + w.close;
    assert Follows(w, end) == sep + ("}" + end);
    SeparatorsAreSkipped(sep, "}" + end, map[]);
  }

  lemma SameValue(w: Written)
    requires w.pairs != [] && Last(w).arg.Delimited?
    ensures WithValue(w.pairs, Last(w).arg.v) == w.pairs
  {}

  lemma FollowsNoDelim(w: Written, end: string)
    requires LastIsFree(w)
    ensures w.pairs != [] && NoDelim(Follows(w, end)) == NoDelim(end)
  {
    FindPast(Last(w).tail + w.close + "}", end, STR_DELIM);
  }

  /** For one delimiter, inside text that does not end the call: exactly so. */
  lemma OneStrayIsRecovered(w: Written, a: string, b: string, end: string)
    requires LastIsFree(w) && Last(w).arg.v == StrayValue(a, b) && NoDelim(a) && Passed(b) && !StartsWithComma(b)
    requires NoDelim(end)
    ensures !StructuralInside(Last(w).arg.v) && LeftOpen(Last(w).arg.v, Follows(w, end))
    ensures BogusKey(end) !in Meaning(w.pairs, map[]) ==>
              (ParseCalls(PrintCall(w) + end) == [MeaningOf(w)] <==> ':' !in end)
  {
    assert !StructuralInside(Last(w).arg.v) && LeftOpen(Last(w).arg.v, Follows(w, end)) by {
      hide StructuralInside, Through, ScanBody, NoDelim, KeyOk, FindOpen, StartsWithComma, Follows;
      StrayInside(a, b);
      AfterStray(a, b);
      InStringAgain(b);
      FollowsNoDelim(w, end);
      StringIsSeen(Follows(w, end), AfterValue(StrayValue(a, b)).value);
    }
    hide LastIsFree, StructuralInside, LeftOpen, ParseCalls, BogusKey, NoDelim, MeaningOf, Meaning, PrintCall;
    hide Passed, StartsWithComma;
    StrayIsRecovered(w, end);
  }

  // ---- calls that follow ------------------------------------------------------------

  /** A text that a scan inside a string passes to its end. */
  predicate Hidden(t: string) { Through(t, IN_VALUE).Some? }

  /** A step at a greater depth. */
  lemma StepDeeper(s: string, st: Scan, k: nat)
    requires s != [] && Sound(st) && !Closes(s, st)
    ensures var deeper := st.(depth := st.depth + k);
            && !Closes(s, deeper) && Sound(Advance(s, st).1) && Advance(s, deeper).0 == Advance(s, st).0
            && Advance(s, deeper).1 == Advance(s, st).1.(depth := Advance(s, st).1.depth + k)
  {
    hide StartsWith;
  }

  /** What does not end the call at one depth does not at a greater one. */
  lemma {:induction false} ThroughDeeper(s: string, st: Scan, k: nat)
    requires Sound(st) && Through(s, st).Some?
    ensures var mid := Through(s, st).value;
            Through(s, st.(depth := st.depth + k)) == Some(mid.(depth := mid.depth + k))
    decreases |s|
  {
    hide Advance, Closes, Sound;
    if s != [] {
      StepDeeper(s, st, k);
      ThroughDeeper(s[Advance(s, st).0..], Advance(s, st).1, k);
    }
  }

  lemma HiddenAtDepth(t: string, depth: nat)
    requires Hidden(t) && depth > 0
    ensures Through(t, IN_VALUE.(depth := depth)).Some? && ScanBody(t, IN_VALUE.(depth := depth)).None?
  {
    hide Through, ScanBody;
    ThroughDeeper(t, IN_VALUE, depth - 1);
    EndsOrGoesOn(t, IN_VALUE.(depth := depth));
  }

  lemma HiddenPart(lead: string, x: string, t: string)
    requires NoDelim(lead) && Passed(x) && Hidden(t)
    ensures Hidden(lead + STR_DELIM + (x + STR_DELIM + t))
  {
    hide Through, NoDelim;
    InStringAgain(x);
    ThroughPart(lead, x, t);
    HiddenAtDepth(t, Through(x + STR_DELIM, OUT_VALUE).value.depth);
  }

  /** Text without a delimiter, before a hidden one. */
  lemma HiddenJoined(x: string, t: string)
    requires NoDelim(x) && Joins(x, t) && Hidden(t)
    ensures Hidden(x + t)
  {
    hide Through, NoDelim, Joins;
    StringIsSeen(x, IN_VALUE);
    ScanJoined(x, t, IN_VALUE);
  }

  lemma HiddenPast(x: string, t: string)
    requires '<' !in x && Hidden(t) && (x == [] || x[|x| - 1] == '}')
    ensures Hidden(x + t)
  {
    hide Hidden;
    NoDelimWithout(x);
    HiddenJoined(x, t);
  }

  /**
   * Arguments, from text `pre` on, that have delimiters only around delimited values, and
   * no such value that would end a call.
   */
  predicate Ordinary(ps: seq<Pair>, pre: string)
    decreases |ps|
  {
    if ps == [] then NoDelim(pre)
    else
      var p, comma := ps[0], if |ps| > 1 then "," else "";
      if p.arg.Delimited? then
        NoDelim(pre + BeforeValue(p)) && Passed(p.arg.v) && Ordinary(ps[1..], p.tail + comma)
      else Ordinary(ps[1..], pre + PrintPair(p) + comma)
  }

  predicate OrdinaryCall(w: Written) { Ordinary(w.pairs, PrintOpening(w.opening)) && AllSep(w.close) }

  lemma PairByParts(p: Pair, pre: string, t: string)
    requires p.arg.Delimited?
    ensures pre + (PrintPair(p) + t) == (pre + BeforeValue(p)) + STR_DELIM + (p.arg.v + STR_DELIM + (p.tail + t))
  {
    hide PrintKey;
  }

  /** The first argument, the comma after it if there is one, and the others. */
  lemma FirstAndRest(ps: seq<Pair>)
    requires ps != []
    ensures PrintPairs(ps) == PrintPair(ps[0]) + (if |ps| > 1 then "," else "") + PrintPairs(ps[1..])
  {
    hide PrintPair;
  }

  lemma {:induction false} PairsAreHidden(ps: seq<Pair>, pre: string, t: string)
    requires Ordinary(ps, pre) && Ends(t) && Hidden(t)
    ensures Hidden(pre + (PrintPairs(ps) + t))
    decreases |ps|
  {
    hide Hidden, Passed, NoDelim, BeforeValue, PrintPair, Ends;
    if ps == [] {
      HiddenJoined(pre, t);
      assert [] + t == t;
    } else {
      var p, comma := ps[0], if |ps| > 1 then "," else "";
      var more := PrintPairs(ps[1..]) + t;
      FirstAndRest(ps);
      RegroupPair(pre, PrintPair(p), comma, PrintPairs(ps[1..]), t);
      if p.arg.Delimited? {
        PairsAreHidden(ps[1..], p.tail + comma, t);
        Regroup(p.tail, comma, more);
        PairByParts(p, pre, comma + more);
        HiddenPart(pre + BeforeValue(p), p.arg.v, p.tail + (comma + more));
      } else {
        PairsAreHidden(ps[1..], pre + PrintPair(p) + comma, t);
      }
    }
  }

  lemma RegroupPair(pre: string, p: string, comma: string, more: string, t: string)
    ensures pre + (p + comma + more + t) == pre + (p + (comma + (more + t)))
    ensures pre + (p + comma + more + t) == (pre + p + comma) + (more + t)
  {}

  lemma CallIsHidden(w: Written, t: string)
    requires OrdinaryCall(w) && Hidden(t)
    ensures Hidden(PrintCall(w) + t)
  {
    hide Hidden, Ordinary, PrintPairs;
    var pre, sep := PrintOpening(w.opening), w.close + "}";
    HiddenPast(sep, t);
    assert Ends(sep + t);
    PairsAreHidden(w.pairs, pre, sep + t);
    RegroupTail(pre, PrintPairs(w.pairs), w.close, t);
  }

  lemma RegroupTail(pre: string, args: string, close: string, t: string)
    ensures pre + args + close + "}" + t == pre + (args + (close + "}" + t))
  {}

  lemma {:induction false} CallsAreHidden(ws: seq<Written>, end: string)
    requires (forall i :: 0 <= i < |ws| ==> OrdinaryCall(ws[i])) && Hidden(end)
    ensures Hidden(PrintCalls(ws, end))
  {
    hide Hidden, OrdinaryCall, PrintCall;
    if ws != [] {
      CallsAreHidden(ws[1..], end);
      CallIsHidden(ws[0], PrintCalls(ws[1..], end));
    }
  }

  lemma HiddenIsLeftOpen(w: Written, end: string)
    requires LastIsFree(w) && AfterValue(Last(w).arg.v).Some? && AfterValue(Last(w).arg.v).value.inStr && Hidden(end)
    ensures LeftOpen(Last(w).arg.v, Follows(w, end))
  {
    hide Hidden, Through, ScanBody, KeyOk, FindOpen;
    var st := AfterValue(Last(w).arg.v).value;
    AfterValueIsSound(Last(w).arg.v);
    assert st == IN_VALUE.(depth := st.depth);
    HiddenPast(Last(w).tail + w.close + "}", end);
    HiddenAtDepth(Follows(w, end), st.depth);
  }

  /**
   * A value with an odd delimiter hides all the calls after it, however many they are,
   * whatever their arguments, and whatever their values hold that does not end a call.
   */
  lemma NoLaterCallIsRead(w: Written, ws: seq<Written>, end: string)
    requires LastIsFree(w) && !StructuralInside(Last(w).arg.v)
    requires AfterValue(Last(w).arg.v).Some? && AfterValue(Last(w).arg.v).value.inStr
    requires (forall i :: 0 <= i < |ws| ==> OrdinaryCall(ws[i])) && Hidden(end)
    ensures var calls := ParseCalls(PrintCall(w) + PrintCalls(ws, end)); |calls| == 1 && calls[0].name == w.opening.name
  {
    hide ParseCalls, LastIsFree, StructuralInside, LeftOpen, Hidden, OrdinaryCall, PrintCall, PrintCalls, StrayRead;
    hide AfterValue;
    assert w.pairs != [] by { FreeHasLast(w); }
    CallsAreHidden(ws, end);
    HiddenIsLeftOpen(w, PrintCalls(ws, end));
    StrayDelimiterFallback(w, PrintCalls(ws, end));
  }

  // ---- what is swallowed ------------------------------------------------------------

  /** The text of a call after its first value. */
  function AfterFirst(w: Written, end: string): string
    requires w.pairs != []
  {
    w.pairs[0].tail + (if |w.pairs| == 1 then [] else "," + PrintPairs(w.pairs[1..])) + w.close + "}" + end
  }

  /** Its text up to its first value. */
  function Lead(w: Written): string
    requires w.pairs != []
  {
    PrintOpening(w.opening) + BeforeValue(w.pairs[0])
  }

  lemma CallByParts(w: Written, end: string)
    requires w.pairs != [] && w.pairs[0].arg.Delimited?
    ensures PrintCall(w) + end
            == Lead(w) + STR_DELIM + (w.pairs[0].arg.v + STR_DELIM + AfterFirst(w, end))
  {
    hide PrintKey, PrintPair, BeforeValue;
    var pre, p := PrintOpening(w.opening), w.pairs[0];
    var others := if |w.pairs| == 1 then [] else "," + PrintPairs(w.pairs[1..]);
    var t := others + w.close + "}" + end;
    assert PrintPairs(w.pairs) == PrintPair(p) + others by { FirstAndOthers(w.pairs); }
    RegroupCall(pre, PrintPair(p), others, w.close, end);
    PairByParts(p, pre, t);
    Regroup4(p.tail, others, w.close, "}");
    Regroup(p.tail, others + w.close + "}", end);
  }

  lemma FirstAndOthers(ps: seq<Pair>)
    requires ps != []
    ensures PrintPairs(ps) == PrintPair(ps[0]) + if |ps| == 1 then [] else "," + PrintPairs(ps[1..])
  {
    hide PrintPair;
  }

  lemma RegroupCall(pre: string, p: string, others: string, close: string, end: string)
    ensures pre + (p + others) + close + "}" + end == pre + (p + (others + close + "}" + end))
  {}

  /** Where a value that runs on into such a call is closed. */
  lemma ClosesInCall(lead: string, x: string, t: string, u: string)
    requires NoDelim(lead) && NoDelim(x) && !StartsWithComma(x) && (Structural(t) || NoDelim(t))
    requires u == x + STR_DELIM + t
    ensures ClosingDelim(lead + STR_DELIM + u) == Some(|lead| + |STR_DELIM| + |x|)
  {
    hide ClosingDelim, NoDelim, Structural, StructuralInside, StartsWithComma;
    ClosesAtOwn(x, t, u);
    ClosesLater(lead, u, |x|);
  }

  lemma ClosesAtOwn(x: string, t: string, u: string)
    requires NoDelim(x) && !StartsWithComma(x) && (Structural(t) || NoDelim(t)) && u == x + STR_DELIM + t
    ensures ClosingDelim(u) == Some(|x|) && !Structural(u)
  {
    hide ClosingDelim, NoDelim, Structural, StructuralInside, StartsWithComma;
    NoDelimNoComma(x);
    NoDelimHasNone(t);
    ClosingOutside(x, t);
    CommaIsStructural(x, t);
  }

  lemma ClosesLater(lead: string, u: string, n: nat)
    requires NoDelim(lead) && ClosingDelim(u) == Some(n) && !Structural(u)
    ensures ClosingDelim(lead + STR_DELIM + u) == Some(|lead| + |STR_DELIM| + n)
  {
    hide ClosingDelim, NoDelim, Structural, StructuralInside;
    NoDelimNoComma(lead);
    ClosingOutside(lead, u);
  }

  /**
   * The call after it is lost into the value: it runs on through that call's text up to the
   * end of its first value, and that call's other arguments become this one's.
   */
  lemma StraySwallowsNextCall(w: Written, lost: Written, end: string)
    requires LastIsFree(w) && !StructuralInside(Last(w).arg.v) && AllWs(w.close)
    requires AfterValue(Last(w).arg.v).Some? && AfterValue(Last(w).arg.v).value.inStr
    requires OrdinaryCall(lost) && lost.pairs != [] && lost.pairs[0].arg.Delimited? && AllWs(lost.pairs[0].tail)
    requires !StartsWithComma(lost.pairs[0].arg.v) && Hidden(end) && (|lost.pairs| > 1 || NoDelim(end))
    ensures var p := lost.pairs[0];
            var value := Last(w).arg.v + STR_DELIM + Last(w).tail + w.close + "}" + Lead(lost) + STR_DELIM + p.arg.v;
            ParseCalls(PrintCall(w) + (PrintCall(lost) + end))
            == [Call(w.opening.name, Meaning(WithValue(w.pairs, value), map[]) + ParseKv(AfterFirst(lost, end), map[]))]
  {
    hide ParseCalls, LastIsFree, StructuralInside, LeftOpen, Hidden, PrintCall, ParseKv, Meaning, WithValue, Lead;
    hide AfterValue, AfterFirst, OrdinaryCall, StrayRead;
    assert w.pairs != [] && AllWs(Last(w).tail) by { FreeTail(w); }
    var next := PrintCall(lost) + end;
    CallIsHidden(lost, end);
    HiddenIsLeftOpen(w, next);
    StrayDelimiterFallback(w, next);
    RunsOn(Last(w).arg.v, Last(w).tail + w.close, lost, end);
    assert Follows(w, next) == Last(w).tail + w.close + "}" + next;
    assert Last(w).arg.v + STR_DELIM + (Last(w).tail + w.close) + "}" + Lead(lost)
        == Last(w).arg.v + STR_DELIM + Last(w).tail + w.close + "}" + Lead(lost);
  }

  lemma FreeTail(w: Written)
    requires LastIsFree(w)
    ensures w.pairs != [] && AllWs(Last(w).tail)
  {}

  lemma OrdinaryFirst(w: Written)
    requires OrdinaryCall(w) && w.pairs != [] && w.pairs[0].arg.Delimited?
    ensures NoDelim(w.pairs[0].arg.v) && NoDelim(Lead(w))
  {
    hide NoDelim, Through;
  }

  /** What the value is read as, and what is left. */
  lemma RunsOn(v: string, z: string, lost: Written, end: string)
    requires AllWs(z) && OrdinaryCall(lost) && lost.pairs != [] && lost.pairs[0].arg.Delimited?
    requires AllWs(lost.pairs[0].tail) && !StartsWithComma(lost.pairs[0].arg.v) && (|lost.pairs| > 1 || NoDelim(end))
    ensures var p := lost.pairs[0];
            StrayRead(v, z + "}" + (PrintCall(lost) + end))
            == (v + STR_DELIM + z + "}" + Lead(lost) + STR_DELIM + p.arg.v, AfterFirst(lost, end))
  {
    hide OrdinaryCall, Lead, AfterFirst, NoDelim, Structural, ClosingDelim, PrintCall, StartsWithComma;
    OrdinaryFirst(lost);
    var x := lost.pairs[0].arg.v;
    var lead, rest := z + "}" + Lead(lost), AfterFirst(lost, end);
    var t := z + "}" + (PrintCall(lost) + end);
    CallByParts(lost, end);
    assert t == lead + STR_DELIM + (x + STR_DELIM + rest);
    LeadNoDelim(z, Lead(lost));
    assert AllSep(lost.close) by { ClosedBySep(lost); }
    AfterFirstCloses(lost, end);
    ClosesInCall(lead, x, rest, x + STR_DELIM + rest);
    BraceDelims(z, PrintCall(lost) + end);
    assert Brace(z, PrintCall(lost) + end) == t;
    NoDelimHasNone(t);
    var c := |lead| + |STR_DELIM| + |x|;
    assert t[..c] == lead + STR_DELIM + x && t[c + |STR_DELIM|..] == rest;
    assert v + STR_DELIM + (lead + STR_DELIM + x)
        == v + STR_DELIM + z + "}" + Lead(lost) + STR_DELIM + x;
  }

  lemma ClosedBySep(w: Written)
    requires OrdinaryCall(w)
    ensures AllSep(w.close)
  {}

  lemma LeadNoDelim(z: string, lead: string)
    requires AllWs(z) && NoDelim(lead)
    ensures NoDelim(z + "}" + lead)
  {
    FindPast(z + "}", lead, STR_DELIM);
  }

  lemma AfterFirstCloses(w: Written, end: string)
    requires AllSep(w.close) && w.pairs != [] && AllWs(w.pairs[0].tail) && (|w.pairs| > 1 || NoDelim(end))
    ensures Structural(AfterFirst(w, end)) || NoDelim(AfterFirst(w, end))
  {
    hide Through, BeforeValue, Find, Structural, PrintPairs, NoDelim;
    var tail := w.pairs[0].tail;
    if |w.pairs| > 1 {
      SpacesThenComma(tail, PrintPairs(w.pairs[1..]) + w.close + "}" + end);
      Regroup6(tail, ",", PrintPairs(w.pairs[1..]), w.close, "}", end);
    } else {
      assert '<' !in tail + w.close + "}";
      NoDelimPast(tail + w.close + "}", end);
      assert tail + [] == tail;
    }
  }

  lemma SpacesThenComma(tail: string, t: string)
    requires AllWs(tail)
    ensures Structural(tail + ("," + t))
  {
    SpacesThenStructural(tail, "," + t);
    CommaStarts(t);
  }

  lemma NoDelimPast(x: string, end: string)
    requires '<' !in x && NoDelim(end)
    ensures NoDelim(x + end)
  {
    FindPast(x, end, STR_DELIM);
  }

  lemma Regroup6(a: string, b: string, c: string, d: string, e: string, f: string)
    ensures a + (b + c) + d + e + f == a + (b + (c + d + e + f))
  {}
}
