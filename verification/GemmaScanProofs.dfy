/** The body scanner ends at the call's own brace, whatever its values hold. */
module GemmaScanProofs {
  import opened Common
  import opened Text
  import opened Gemma
  import opened GemmaPrint
  import opened GemmaProofs

  // ---- scanning piece by piece ------------------------------------------------------

  /** Two texts over whose boundary no delimiter can reach. */
  predicate Joins(x: string, y: string) {
    x == [] || Ends(y) || (x[|x| - 1] != '<' && x[|x| - 1] != '|' && x[|x| - 1] != '"')
  }

  /** No escape is left waiting for its character at the end of a text. */
  predicate Settled(x: string, st: Scan) { st.quote.None? || x == [] || x[|x| - 1] != '\\' }

  lemma DelimAtJoin(x: string, y: string)
    requires x != [] && Joins(x, y)
    ensures StartsWith(x + y, STR_DELIM) == StartsWith(x, STR_DELIM)
  {
    var s := x + y;
    if |x| >= |STR_DELIM| {
      assert s[..|STR_DELIM|] == x[..|STR_DELIM|];
    } else if |s| >= |STR_DELIM| {
      assert s[..|STR_DELIM|][|x|] == y[0];
      assert s[..|STR_DELIM|][|x| - 1] == x[|x| - 1];
    }
  }

  /** One step is the same whatever follows. */
  lemma StepAtJoin(x: string, y: string, st: Scan)
    requires x != [] && Joins(x, y) && (st.quote.Some? ==> x != "\\")
    ensures Closes(x + y, st) == Closes(x, st) && Advance(x + y, st) == Advance(x, st)
    ensures (x + y)[Advance(x, st).0..] == x[Advance(x, st).0..] + y
    ensures Joins(x[Advance(x, st).0..], y)
  {
    hide StartsWith, Plain;
    DelimAtJoin(x, y);
    TakeDrop(x, y, Advance(x, st).0);
  }

  /**
   * A text is scanned the same whatever follows it: the call ends inside it, at the same
   * place, or the scan goes on from the state it left.
   */
  lemma {:induction false} ScanJoined(x: string, y: string, st: Scan)
    requires Joins(x, y)
    ensures Through(x, st).None? ==>
              Through(x + y, st).None? && ScanBody(x, st).Some? && ScanBody(x + y, st) == ScanBody(x, st)
    ensures Through(x, st).Some? && Settled(x, Through(x, st).value) ==>
              var mid := Through(x, st).value;
              Through(x + y, st) == Through(y, mid) && ScanBody(x + y, st) == Later(|x|, ScanBody(y, mid))
    decreases |x|
  {
    hide Joins, Advance, Closes;
    if x == [] {
      assert x + y == y;
    } else if st.quote.Some? && x == "\\" {
      assert Through(x, st) == Some(st) by { LoneEscape(st); }
    } else {
      StepAtJoin(x, y, st);
      if !Closes(x, st) {
        var (n, st') := Advance(x, st);
        ScanJoined(x[n..], y, st');
      }
    }
  }

  lemma LoneEscape(st: Scan)
    requires st.quote.Some?
    ensures Through("\\", st) == Some(st) || (st.inStr && Through("\\", st) == Some(st))
  {
    assert "\\"[1..] == [];
  }

  /** A scan goes on through a text or ends the call inside it. */
  lemma {:induction false} EndsOrGoesOn(s: string, st: Scan)
    ensures ScanBody(s, st).None? <==> Through(s, st).Some?
    decreases |s|
  {
    hide Advance, Closes;
    if s != [] && !Closes(s, st) { EndsOrGoesOn(s[Advance(s, st).0..], Advance(s, st).1); }
  }

  /** Where the call ends there is a brace. */
  lemma {:induction false} EndsAtBrace(s: string, st: Scan)
    requires ScanBody(s, st).Some?
    ensures s[ScanBody(s, st).value - 1] == '}'
    decreases |s|
  {
    hide Advance;
    if !Closes(s, st) { EndsAtBrace(s[Advance(s, st).0..], Advance(s, st).1); }
  }

  // ---- pieces -----------------------------------------------------------------------

  /** One character outside any string. */
  lemma ThroughOne(c: char, st: Scan)
    requires st.quote.None? && !st.inStr && (c == '}' ==> st.depth > 1)
    ensures Through([c], st) == Some(Plain(st, c))
  {
    hide Plain;
    assert [c][1..] == [];
  }

  lemma ThroughFirst(c: char, x: string, st: Scan)
    requires st.quote.None? && !st.inStr && (c == '}' ==> st.depth > 1) && !StartsWith([c] + x, STR_DELIM)
    ensures Through([c] + x, st) == Through(x, Plain(st, c))
  {
    hide Plain, StartsWith;
    assert ([c] + x)[1..] == x;
  }

  /** Separators change nothing but where a pair begins. */
  lemma {:induction false} ThroughSep(x: string, st: Scan)
    requires AllSep(x) && st.quote.None? && !st.inStr
    ensures Through(x, st) == Some(if ',' in x then st.(at := KeyStart) else st)
  {
    hide Through, StartsWith;
    if x == [] {
      ThroughNothing(st);
    } else {
      assert x == [x[0]] + x[1..];
      NotDelim(x);
      ThroughFirst(x[0], x[1..], st);
      ThroughSep(x[1..], Plain(st, x[0]));
    }
  }

  lemma ThroughNothing(st: Scan)
    ensures Through([], st) == Some(st)
  {}

  lemma NoDelimTail(x: string)
    requires x != [] && NoDelim(x)
    ensures NoDelim(x[1..]) && !StartsWith(x, STR_DELIM)
  {}

  /** Inside a bare key or value the scanner stays where it is. */
  lemma {:induction false} ThroughInside(x: string, st: Scan)
    requires st.quote.None? && !st.inStr && NoDelim(x) && NoBrace(x) && ',' !in x
    requires st.at == ValueInside || (st.at == KeyInside && ':' !in x)
    ensures Through(x, st) == Some(st)
  {
    hide Through, StartsWith, NoDelim;
    if x == [] {
      ThroughNothing(st);
    } else {
      assert x == [x[0]] + x[1..];
      NoDelimTail(x);
      ThroughFirst(x[0], x[1..], st);
      ThroughInside(x[1..], st);
    }
  }

  /** A bare key or value of at least one character, from its first on. */
  lemma ThroughBare(x: string, st: Scan)
    requires st.quote.None? && !st.inStr && NoDelim(x)
    requires x != [] && NoBrace(x) && ',' !in x && !IsQuote(x[0]) && !IsWs(x[0])
    requires st.at == ValueStart || (st.at == KeyStart && ':' !in x)
    ensures Through(x, st) == Some(st.(at := if st.at == KeyStart then KeyInside else ValueInside))
  {
    hide Through, StartsWith, NoDelim;
    assert x == [x[0]] + x[1..];
    NoDelimTail(x);
    ThroughFirst(x[0], x[1..], st);
    ThroughInside(x[1..], Plain(st, x[0]));
  }

  /** One character of a quoted string, escaped if it must be. */
  lemma ThroughOneQuoted(c: char, q: char, st: Scan, x: string)
    requires st.quote == Some(q) && !st.inStr && IsQuote(q)
    ensures Through((if c == '\\' || c == q then ['\\', c] else [c]) + x, st) == Through(x, st)
  {
    if c == '\\' || c == q {
      assert (['\\', c] + x)[2..] == x;
    } else {
      assert ([c] + x)[1..] == x;
    }
  }

  /** Inside a quoted string everything up to its own closing quote is skipped. */
  lemma {:induction false} ThroughQuoted(v: string, q: char, st: Scan)
    requires st.quote == Some(q) && !st.inStr && IsQuote(q)
    ensures Through(Escape(v, q) + [q], st) == Some(st.(quote := None))
  {
    if v == [] {
      assert Escape(v, q) + [q] == [q] && [q][1..] == [];
    } else {
      hide Through;
      var rest := Escape(v[1..], q) + [q];
      ThroughQuoted(v[1..], q, st);
      ThroughOneQuoted(v[0], q, st, rest);
      var one := if v[0] == '\\' || v[0] == q then ['\\', v[0]] else [v[0]];
      assert one + rest == Escape(v, q) + [q];
    }
  }

  /** A quoted key or value, opening quote and all. */
  lemma ThroughWholeQuoted(v: string, q: char, st: Scan)
    requires st.quote.None? && !st.inStr && IsQuote(q) && (st.at == KeyStart || st.at == ValueStart)
    ensures Through([q] + Escape(v, q) + [q], st)
            == Some(st.(at := if st.at == KeyStart then KeyInside else ValueInside))
  {
    hide Through, StartsWith;
    var body := Escape(v, q) + [q];
    NotDelim([q] + body);
    ThroughFirst(q, body, st);
    ThroughQuoted(v, q, Plain(st, q));
    assert [q] + body == [q] + Escape(v, q) + [q];
  }

  /** A delimiter opens or closes a string. */
  lemma ThroughDelim(x: string, st: Scan)
    requires st.quote.None?
    ensures Through(STR_DELIM + x, st) == Through(x, st.(inStr := !st.inStr, at := ValueInside))
    ensures ScanBody(STR_DELIM + x, st) == Later(|STR_DELIM|, ScanBody(x, st.(inStr := !st.inStr, at := ValueInside)))
  {
    var s := STR_DELIM + x;
    assert s[..|STR_DELIM|] == STR_DELIM && s[|STR_DELIM|..] == x;
  }

  /** Inside a string everything up to the next delimiter is skipped. */
  lemma {:induction false} ThroughString(v: string, st: Scan, x: string)
    requires st.inStr && st.quote.None? && NoDelim(v)
    ensures Through(v + STR_DELIM + x, st) == Through(x, st.(inStr := false, at := ValueInside))
  {
    var s := v + STR_DELIM + x;
    if v == [] {
      ThroughDelim(x, st);
      assert s == STR_DELIM + x;
    } else {
      assert !StartsWith(s, STR_DELIM) by { NoDelimBefore(v, x); }
      assert s[1..] == v[1..] + STR_DELIM + x;
      NoDelimTail(v);
      ThroughString(v[1..], st, x);
    }
  }

  // ---- values the scanner passes ----------------------------------------------------

  lemma QuotedIsOk(v: string, q: char)
    requires IsQuote(q)
    ensures ArgOk(Quoted(v, q))
  {
    hide Through;
    ThroughWholeQuoted(v, q, VALUE_START);
  }

  lemma BareIsOk(v: string)
    requires ArgReadable(BareArg(v)) && NoBrace(v)
    ensures ArgOk(BareArg(v))
  {
    hide Through, NoDelim;
    if v == [] { ThroughNothing(VALUE_START); } else { ThroughBare(v, VALUE_START); }
  }

  // ---- pairs ------------------------------------------------------------------------

  lemma ThroughKey(k: Key)
    requires KeyOk(k)
    ensures Through(PrintKey(k), BODY_START) == Some(BODY_START.(at := KeyInside))
  {
    hide Through;
    match k
    case QuotedKey(key, q) => ThroughWholeQuoted(key, q, BODY_START);
    case BareKey(key) => ThroughBare(key, BODY_START);
  }

  /** The scanner takes `x` from `st` to `mid` and goes on with `y`. */
  ghost predicate Takes(x: string, st: Scan, y: string, mid: Scan) {
    Through(x + y, st) == Through(y, mid) && ScanBody(x + y, st) == Later(|x|, ScanBody(y, mid))
  }

  lemma TakesThen(x: string, y: string, z: string, st: Scan, mid: Scan, end: Scan)
    requires Takes(x, st, y + z, mid) && Takes(y, mid, z, end)
    ensures Takes(x + y, st, z, end)
  {
    hide Through, ScanBody;
    assert x + y + z == x + (y + z);
  }

  lemma TakesSep(x: string, st: Scan, y: string)
    requires AllSep(x) && st.quote.None? && !st.inStr
    ensures Takes(x, st, y, if ',' in x then st.(at := KeyStart) else st)
  {
    hide Through, ScanBody;
    ThroughSep(x, st);
    ScanJoined(x, y, st);
  }

  lemma TakesKey(k: Key, y: string)
    requires KeyOk(k) && Ends(y)
    ensures Takes(PrintKey(k), BODY_START, y, BODY_START.(at := KeyInside))
  {
    hide Through, ScanBody, PrintKey;
    ThroughKey(k);
    ScanJoined(PrintKey(k), y, BODY_START);
  }

  lemma TakesColon(y: string)
    ensures Takes(":", BODY_START.(at := KeyInside), y, VALUE_START)
  {
    hide Through, ScanBody;
    ThroughOne(':', BODY_START.(at := KeyInside));
    ScanJoined(":", y, BODY_START.(at := KeyInside));
  }

  /** What stands before a pair's value. */
  function BeforeValue(p: Pair): string { p.pad + PrintKey(p.key) + ":" + p.gap }

  /** From a pair's start to its value, whatever that is. */
  lemma TakesToValue(p: Pair, x: string)
    requires AllSep(p.pad) && AllWs(p.gap) && KeyOk(p.key)
    ensures Takes(BeforeValue(p), BODY_START, x, VALUE_START)
  {
    hide Takes, KeyOk, PrintKey;
    var inKey := BODY_START.(at := KeyInside);
    var key := PrintKey(p.key);
    WsIsSep(p.gap);
    TakesSep(p.gap, VALUE_START, x);
    TakesColon(p.gap + x);
    TakesThen(":", p.gap, x, inKey, VALUE_START, VALUE_START);
    assert (":" + p.gap + x)[0] == ':';
    TakesKey(p.key, ":" + p.gap + x);
    TakesThen(key, ":" + p.gap, x, BODY_START, inKey, VALUE_START);
    TakesSep(p.pad, BODY_START, key + (":" + p.gap) + x);
    TakesThen(p.pad, key + (":" + p.gap), x, BODY_START, BODY_START, VALUE_START);
    assert p.pad + (key + (":" + p.gap)) == BeforeValue(p);
  }

  lemma WsIsSep(x: string)
    requires AllWs(x)
    ensures AllSep(x) && ',' !in x
  {}

  /** Where the scanner stands after a pair. */
  function AfterPair(p: Pair): Scan
    requires PairOk(p)
  {
    Through(PrintArg(p.arg), VALUE_START).value
  }

  lemma EndsWithSpaces(pad: string, x: string)
    requires AllWs(pad) && Ends(x)
    ensures Ends(pad + x)
  {}

  lemma TakesArg(p: Pair, y: string)
    requires PairOk(p) && Ends(y)
    ensures Takes(PrintArg(p.arg), VALUE_START, y, AfterPair(p))
  {
    hide Through, ScanBody, PrintArg, ArgReadable, KeyOk;
    ScanJoined(PrintArg(p.arg), y, VALUE_START);
  }

  lemma TakesPair(p: Pair, x: string)
    requires PairOk(p) && Ends(x)
    ensures Takes(PrintPair(p), BODY_START, x, AfterPair(p))
  {
    hide Takes, KeyOk, PrintKey, PrintArg, ArgReadable, Ends;
    var arg := PrintArg(p.arg);
    AfterPairIsOut(p);
    WsIsSep(p.tail);
    TakesSep(p.tail, AfterPair(p), x);
    EndsWithSpaces(p.tail, x);
    TakesArg(p, p.tail + x);
    TakesThen(arg, p.tail, x, VALUE_START, AfterPair(p), AfterPair(p));
    TakesToValue(p, arg + p.tail + x);
    TakesThen(BeforeValue(p), arg + p.tail, x, BODY_START, VALUE_START, AfterPair(p));
    assert BeforeValue(p) + (arg + p.tail) == PrintPair(p);
  }

  /** A pair and a comma: the scan starts afresh with the next pair. */
  lemma MoreFollows(p: Pair, x: string)
    requires PairOk(p)
    ensures ScanBody(PrintPair(p) + ("," + x), BODY_START) == Later(|PrintPair(p)| + 1, ScanBody(x, BODY_START))
  {
    hide PairReadable, PrintPair, PrintArg, ScanBody, Through, ArgReadable;
    TakesPair(p, "," + x);
    AfterPairIsOut(p);
    TakesSep(",", AfterPair(p), x);
  }

  /** The scanner stops at the call's own brace. */
  lemma {:induction false} BodyEndsAtBrace(ps: seq<Pair>, close: string, t: string)
    requires (forall i :: 0 <= i < |ps| ==> PairOk(ps[i])) && AllSep(close)
    ensures ScanBody(PrintPairs(ps) + close + ("}" + t), BODY_START) == Some(|PrintPairs(ps) + close| + 1)
  {
    hide PairOk, PrintPair, ScanBody, Through, AtCallLevel, Ends, AllSep, AfterPair;
    var x := close + ("}" + t);
    if ps == [] {
      CloseEnds(close, t, BODY_START) by { StartIsAtLevel(); }
      assert [] + close == close;
    } else if |ps| == 1 {
      CloseEndsIt(close, t);
      TakesPair(ps[0], x);
      CloseEnds(close, t, AfterPair(ps[0])) by { AfterPairIsOut(ps[0]); }
      Regroup(PrintPair(ps[0]), close, "}" + t);
    } else {
      var more := PrintPairs(ps[1..]);
      BodyEndsAtBrace(ps[1..], close, t);
      MoreFollows(ps[0], more + close + ("}" + t));
      RegroupComma(PrintPair(ps[0]), more, x);
      Regroup(more, close, "}" + t);
      Regroup(PrintPairs(ps), close, "}" + t);
    }
  }

  lemma StartIsAtLevel()
    ensures AtCallLevel(Some(BODY_START))
  {}

  lemma CloseEndsIt(close: string, t: string)
    requires AllSep(close)
    ensures Ends(close + ("}" + t))
  {}

  lemma AfterPairIsOut(p: Pair)
    requires PairOk(p)
    ensures AtCallLevel(Some(AfterPair(p)))
  {}

  lemma CloseEnds(close: string, t: string, st: Scan)
    requires AllSep(close) && AtCallLevel(Some(st))
    ensures ScanBody(close + ("}" + t), st) == Some(|close| + 1)
  {
    hide Through, ScanBody, AllSep;
    TakesSep(close, st, "}" + t);
    BraceCloses(if ',' in close then st.(at := KeyStart) else st, t);
  }

  lemma BraceCloses(st: Scan, t: string)
    requires AtCallLevel(Some(st))
    ensures ScanBody("}" + t, st) == Some(1)
  {}

  /**
   * And only then: with a value the scanner does not leave at the call's own level it does
   * not stop at the brace right after it.
   */
  lemma BraceIsSeenExactly(p: Pair, t: string)
    requires PairReadable(p) && p.arg.Delimited?
    ensures ScanBody(PrintPair(p) + ("}" + t), BODY_START) == Some(|PrintPair(p)| + 1)
            <==> AtCallLevel(Through(PrintArg(p.arg), VALUE_START))
  {
    hide Through, KeyOk, PrintKey, PrintArg, ArgReadable, ScanBody;
    var arg := PrintArg(p.arg);
    var x := p.tail + ("}" + t);
    TakesToValue(p, arg + x);
    assert PrintPair(p) + ("}" + t) == BeforeValue(p) + (arg + x);
    DelimitedJoins(p.arg, x);
    ScanJoined(arg, x, VALUE_START);
    if Through(arg, VALUE_START).None? {
      ClosedInside(arg, VALUE_START);
    } else {
      ThroughKeepsSound(arg, VALUE_START);
      BraceAfterSpaces(p.tail, t, Through(arg, VALUE_START).value);
    }
  }

  lemma DelimitedJoins(a: Arg, x: string)
    requires a.Delimited?
    ensures Joins(PrintArg(a), x) && forall st :: Settled(PrintArg(a), st)
  {
    assert PrintArg(a)[|PrintArg(a)| - 1] == '>';
  }

  lemma ClosedInside(s: string, st: Scan)
    requires Through(s, st).None?
    ensures ScanBody(s, st).Some? && ScanBody(s, st).value <= |s|
  {
    EndsOrGoesOn(s, st);
  }

  /** What is so of every state a scan can be in. */
  predicate Sound(st: Scan) {
    && st.depth > 0 && (st.quote.Some? ==> IsQuote(st.quote.value))
    && (st.inStr ==> st.quote.None? && st.at == ValueInside)
  }

  lemma {:induction false} ThroughKeepsSound(s: string, st: Scan)
    requires Sound(st) && Through(s, st).Some?
    ensures Sound(Through(s, st).value)
    decreases |s|
  {
    hide StartsWith;
    if s != [] { ThroughKeepsSound(s[Advance(s, st).0..], Advance(s, st).1); }
  }

  lemma {:induction false} BraceAfterSpaces(pad: string, t: string, st: Scan)
    requires AllWs(pad) && Sound(st)
    ensures ScanBody(pad + ("}" + t), st) == Some(|pad| + 1) <==> AtCallLevel(Some(st))
  {
    var s := pad + ("}" + t);
    NotDelim(s);
    if pad == [] {
      assert s == "}" + t;
    } else {
      assert s[1..] == pad[1..] + ("}" + t);
      assert Advance(s, st) == (1, st);
      BraceAfterSpaces(pad[1..], t, st);
    }
  }

  // ---- whole replies ----------------------------------------------------------------

  lemma {:induction false} NameRunIs(name: string, t: string)
    requires forall i :: 0 <= i < |name| ==> IsNameChar(name[i])
    requires t != [] && !IsNameChar(t[0])
    ensures NameRun(name + t) == |name|
  {
    if name == [] {
      assert name + t == t;
    } else {
      assert (name + t)[1..] == name[1..] + t;
      NameRunIs(name[1..], t);
    }
  }

  /** Spaces are passed over. */
  lemma {:induction false} AfterWsPad(pad: string, s: string)
    requires AllWs(pad) && s != [] && !IsWs(s[0])
    ensures AfterWs(pad + s) == s
  {
    if pad == [] {
      assert pad + s == s;
      NoWsAhead(s);
    } else {
      assert (pad + s)[1..] == pad[1..] + s;
      AfterWsPad(pad[1..], s);
      assert (pad + s)[1 + WsRun(pad[1..] + s)..] == (pad[1..] + s)[WsRun(pad[1..] + s)..];
    }
  }

  /** A written opening is matched where it stands. */
  lemma OpenMatches(o: Opening, t: string)
    requires OpeningOk(o)
    ensures var s := CALL + (o.lead + (o.name + (o.gap + ("{" + t))));
            MatchOpen(s) == Some((o.name, |s| - |t|))
  {
    hide AfterWs, NameRun;
    var body := "{" + t;
    var named := o.name + (o.gap + body);
    var s := CALL + (o.lead + named);
    CutJoin(CALL, o.lead + named);
    assert IsNameChar(named[0]) && !IsWs(named[0]);
    AfterWsPad(o.lead, named);
    assert !IsNameChar((o.gap + body)[0]);
    NameRunIs(o.name, o.gap + body);
    CutJoin(o.name, o.gap + body);
    AfterWsPad(o.gap, body);
  }

  lemma NoWsAhead(s: string)
    requires s == [] || !IsWs(s[0])
    ensures AfterWs(s) == s
  {}

  /** White space goes on, or not, as it did before a text that starts with a letter. */
  lemma {:induction false} WsRunBefore(x: string, t: string)
    requires t != [] && !IsWs(t[0])
    ensures WsRun(x + t) == WsRun(x)
  {
    if x == [] {
      assert x + t == t;
    } else {
      assert (x + t)[1..] == x[1..] + t;
      WsRunBefore(x[1..], t);
    }
  }

  /** A name goes on through what follows only if nothing ends it before. */
  lemma {:induction false} NameRunBefore(x: string, t: string)
    ensures NameRun(x + t) == if NameRun(x) < |x| then NameRun(x) else |x| + NameRun(t)
  {
    if x == [] {
      assert x + t == t;
    } else {
      assert (x + t)[1..] == x[1..] + t;
      NameRunBefore(x[1..], t);
    }
  }

  /** `\s*\{` at the start of a text. */
  predicate BraceAfterWs(s: string) { AfterWs(s) != [] && AfterWs(s)[0] == '{' }

  /** What an opening needs after its `call:`. */
  predicate NameAndBrace(s: string) {
    var name := AfterWs(s);
    NameRun(name) > 0 && BraceAfterWs(name[NameRun(name)..])
  }

  lemma OpensByParts(s: string)
    ensures MatchOpen(s).Some? <==> StartsWith(s, CALL) && NameAndBrace(s[|CALL|..])
  {
    hide AfterWs, NameRun, StartsWith;
  }

  lemma AfterWsBefore(x: string, t: string)
    requires t != [] && !IsWs(t[0])
    ensures AfterWs(x + t) == AfterWs(x) + t
  {
    WsRunBefore(x, t);
  }

  lemma BraceBefore(x: string, t: string)
    requires t != [] && t[0] == 'c'
    ensures BraceAfterWs(x + t) == BraceAfterWs(x)
  {
    hide AfterWs;
    AfterWsBefore(x, t);
  }

  lemma ColonIsNoBrace(s: string)
    requires s != [] && s[0] == ':'
    ensures !BraceAfterWs(s)
  {}

  /** What is written before a call does not join with it into an opening. */
  lemma NameStopsAtCall(x: string, t: string)
    requires |t| > 4 && t[..|CALL|] == CALL && !NameAndBrace(x)
    ensures !NameAndBrace(x + t)
  {
    hide NameRun, AfterWs, BraceAfterWs;
    assert t[0] == t[..|CALL|][0] && t[4] == t[..|CALL|][4];
    CallIsNoName(t);
    AfterWsBefore(x, t);
    var y := AfterWs(x);
    NameRunBefore(y, t);
    var n := NameRun(y);
    if n < |y| {
      TakeDrop(y, t, n);
      BraceBefore(y[n..], t);
    } else {
      DropPast(y, t, 4);
      ColonIsNoBrace(t[4..]);
    }
  }

  /** `call:` is a run of four name characters and then neither a space nor a brace. */
  lemma CallIsNoName(t: string)
    requires |t| > 4 && t[..|CALL|] == CALL
    ensures NameRun(t) == 4
  {
    assert t[..|CALL|][0] == t[0] && t[..|CALL|][1] == t[1] && t[..|CALL|][2] == t[2] && t[..|CALL|][3] == t[3];
    assert t[..|CALL|][4] == t[4];
    assert t[1..][1..] == t[2..] && t[2..][1..] == t[3..] && t[3..][1..] == t[4..];
    assert NameRun(t[4..]) == 0;
    assert NameRun(t[3..]) == 1;
    assert NameRun(t[2..]) == 2;
    assert NameRun(t[1..]) == 3;
  }

  lemma GlueHasNoOpen(glue: string, t: string)
    requires glue != [] && MatchOpen(glue).None? && |t| > 4 && t[..|CALL|] == CALL
    ensures MatchOpen(glue + t).None?
  {
    hide NameAndBrace, MatchOpen;
    OpensByParts(glue);
    OpensByParts(glue + t);
    CallsDoNotOverlap(glue, t);
    if StartsWith(glue, CALL) {
      NameStopsAtCall(glue[|CALL|..], t);
      assert (glue + t)[|CALL|..] == glue[|CALL|..] + t;
    }
  }

  lemma CallsDoNotOverlap(glue: string, t: string)
    requires glue != [] && |t| > 4 && t[..|CALL|] == CALL
    ensures StartsWith(glue + t, CALL) ==> StartsWith(glue, CALL)
  {
    var s := glue + t;
    if |glue| >= |CALL| {
      assert s[..|CALL|] == glue[..|CALL|];
    } else {
      assert s[..|CALL|][|glue|] == t[0] == t[..|CALL|][0];
    }
  }

  lemma {:induction false} FindOpenAfter(glue: string, call: string)
    requires FindOpen(glue).None? && |call| > 4 && call[..|CALL|] == CALL && MatchOpen(call).Some?
    ensures var (name, n) := MatchOpen(call).value; FindOpen(glue + call) == Some((name, |glue| + n))
  {
    hide MatchOpen;
    if glue == [] {
      assert glue + call == call;
    } else {
      GlueHasNoOpen(glue, call);
      assert (glue + call)[1..] == glue[1..] + call;
      FindOpenAfter(glue[1..], call);
    }
  }

  lemma SplitBody(body: string, args: string, t: string)
    requires body == args + ("}" + t)
    ensures body[..|args|] == args && body[|args| + 1..] == t
  {}

  /** The next call of a reply, where its end is known. */
  lemma NextEnded(s: string, name: string, at: nat, n: nat)
    requires FindOpen(s) == Some((name, at)) && ScanBody(s[at..], BODY_START) == Some(n)
    ensures at + n <= |s| && 0 < n
    ensures NextCall(s) == Some((Call(name, ParseKv(s[at..at + n - 1], map[])), Some(s[at + n..])))
  {
    hide FindOpen, ScanBody, ParseKv;
  }

  /** A call whose opening and end are known is read, and what follows it is read next. */
  lemma ParseOne(s: string, at: nat, name: string, args: string, t: string)
    requires FindOpen(s) == Some((name, at)) && s[at..] == args + ("}" + t)
    requires ScanBody(s[at..], BODY_START) == Some(|args| + 1)
    ensures NextCall(s) == Some((Call(name, ParseKv(args, map[])), Some(t)))
  {
    hide FindOpen, ScanBody, ParseKv, NextCall;
    NextEnded(s, name, at, |args| + 1);
    SplitBody(s[at..], args, t);
    CutTail(s, at, s[at..], |args| + 1);
  }

  /** The first call, and the others. */
  lemma FirstCall(s: string, call: Call, rest: string)
    requires NextCall(s) == Some((call, Some(rest)))
    ensures ParseCalls(s) == [call] + ParseCalls(rest)
  {
    hide NextCall;
  }

  /** The opening of a written call is found, and its body is what is left. */
  lemma OpeningIsFound(o: Opening, body: string)
    requires OpeningOk(o)
    ensures var pre := PrintOpening(o);
            FindOpen(pre + body) == Some((o.name, |pre|)) && (pre + body)[|pre|..] == body
  {
    hide FindOpen, MatchOpen;
    var call := CALL + (o.lead + (o.name + (o.gap + ("{" + body))));
    OpenMatches(o, body);
    CutJoin(CALL, o.lead + (o.name + (o.gap + ("{" + body))));
    FindOpenAfter(o.glue, call);
    RegroupOpening(o.glue, CALL, o.lead, o.name, o.gap, body);
    CutJoin(PrintOpening(o), body);
  }

  lemma RegroupOpening(glue: string, call: string, lead: string, name: string, gap: string, body: string)
    ensures glue + call + lead + name + gap + "{" + body == glue + (call + (lead + (name + (gap + ("{" + body)))))
  {}

  /** One written call is read, and what follows it is read next. */
  lemma CallIsRead(w: Written, t: string)
    requires WrittenOk(w)
    ensures ParseCalls(PrintCall(w) + t) == [MeaningOf(w)] + ParseCalls(t)
  {
    hide FindOpen, ScanBody, ParseKv, PairOk, PrintPairs, Meaning, ParseCalls, NextCall, PrintOpening, OpeningOk;
    var args := PrintPairs(w.pairs) + w.close;
    var pre := PrintOpening(w.opening);
    var s := PrintCall(w) + t;
    assert s == pre + (args + ("}" + t));
    OpeningIsFound(w.opening, args + ("}" + t));
    BodyEndsAtBrace(w.pairs, w.close, t);
    ArgumentsAreRead(w);
    ParseOne(s, |pre|, w.opening.name, args, t);
    FirstCall(s, MeaningOf(w), t);
  }

  lemma ArgumentsAreRead(w: Written)
    requires WrittenOk(w)
    ensures ParseKv(PrintPairs(w.pairs) + w.close, map[]) == Meaning(w.pairs, map[])
  {
    ArgumentsRoundTrip(w.pairs, w.close, map[]);
  }

  /**
   * The round trip: calls written in any mix of the accepted syntaxes, with any spaces and
   * separators between their arguments and any text around them that opens no call itself,
   * parse back to exactly those calls in order.
   */
  lemma {:induction false} CallsRoundTrip(ws: seq<Written>, end: string)
    requires (forall i :: 0 <= i < |ws| ==> WrittenOk(ws[i])) && FindOpen(end).None?
    ensures ParseCalls(PrintCalls(ws, end)) == MeaningOfAll(ws)
  {
    hide WrittenOk, PrintCall, FindOpen;
    if ws != [] {
      CallIsRead(ws[0], PrintCalls(ws[1..], end));
      CallsRoundTrip(ws[1..], end);
    }
  }
}
