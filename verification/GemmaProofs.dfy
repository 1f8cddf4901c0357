/** The scanner and the parser agree with each other and with what was written. */
module GemmaProofs {
  import opened Common
  import opened Text
  import opened Gemma
  import opened GemmaPrint

  // ---- delimiters -------------------------------------------------------------------

  lemma NotDelim(s: string)
    requires s == [] || s[0] != '<'
    ensures !StartsWith(s, STR_DELIM)
  {
    if |s| >= |STR_DELIM| { assert s[..|STR_DELIM|][0] == s[0]; }
  }

  lemma {:induction false} NoDelimWithout(s: string)
    requires '<' !in s
    ensures NoDelim(s)
  {
    if s != [] {
      NotDelim(s);
      NoDelimWithout(s[1..]);
    } else {
      NotDelim(s);
    }
  }

  /** The delimiter does not overlap itself: none starts in a delimiter-free text before one. */
  lemma NoDelimBefore(v: string, t: string)
    requires v != [] && NoDelim(v)
    ensures !StartsWith(v + STR_DELIM + t, STR_DELIM)
  {
    var s := v + STR_DELIM + t;
    if |v| >= |STR_DELIM| {
      assert s[..|STR_DELIM|] == v[..|STR_DELIM|];
    } else {
      assert s[..|STR_DELIM|][|v|] == '<';
    }
  }

  /** Text that cannot go on with a delimiter begun before it. */
  predicate Ends(t: string) { t == [] || (t[0] != '|' && t[0] != '"' && t[0] != '>') }

  /** Nor in one before a character that does not go on with it. */
  lemma NoDelimAcross(v: string, t: string)
    requires v != [] && NoDelim(v) && Ends(t)
    ensures !StartsWith(v + t, STR_DELIM)
  {
    var s := v + t;
    if |v| >= |STR_DELIM| {
      assert s[..|STR_DELIM|] == v[..|STR_DELIM|];
    } else if |s| >= |STR_DELIM| {
      assert s[..|STR_DELIM|][|v|] == t[0];
    }
  }

  lemma {:induction false} FindDelimAfter(v: string, t: string)
    requires NoDelim(v)
    ensures Find(v + STR_DELIM + t, STR_DELIM) == Some(|v|)
  {
    var s := v + STR_DELIM + t;
    if v == [] {
      assert s[..|STR_DELIM|] == STR_DELIM;
    } else {
      assert !StartsWith(s, STR_DELIM) by { NoDelimBefore(v, t); }
      assert s[1..] == v[1..] + STR_DELIM + t;
      FindDelimAfter(v[1..], t);
    }
  }

  // ---- quoted strings ---------------------------------------------------------------

  /** One character, escaped if it must be, is read as itself. */
  lemma OneQuoted(c: char, q: char, rest: string)
    requires IsQuote(q)
    ensures QuotedBody((if c == '\\' || c == q then ['\\', c] else [c]) + rest, q)
            == ([c] + QuotedBody(rest, q).0, QuotedBody(rest, q).1)
  {
    if c == '\\' || c == q {
      assert (['\\', c] + rest)[2..] == rest;
    } else {
      assert ([c] + rest)[1..] == rest;
    }
  }

  /** Reading a quoted string undoes escaping it, whatever follows. */
  lemma {:induction false} QuotedRoundTrip(v: string, q: char, t: string)
    requires IsQuote(q)
    ensures QuotedBody(Escape(v, q) + [q] + t, q) == (v, t)
  {
    hide QuotedBody;
    if v == [] {
      QuotedEnds(q, t);
      assert Escape(v, q) + [q] + t == [q] + t;
    } else {
      var rest := Escape(v[1..], q) + [q] + t;
      var one := if v[0] == '\\' || v[0] == q then ['\\', v[0]] else [v[0]];
      QuotedRoundTrip(v[1..], q, t);
      OneQuoted(v[0], q, rest);
      assert Escape(v, q) + [q] + t == one + rest;
      assert [v[0]] + v[1..] == v;
    }
  }

  lemma QuotedEnds(q: char, t: string)
    requires IsQuote(q)
    ensures QuotedBody([q] + t, q) == ([], t)
  {
    assert ([q] + t)[1..] == t;
  }

  /** `scan_quoted` inverts the escaping printer. */
  lemma ScanQuotedRoundTrip(v: string, q: char, t: string)
    requires IsQuote(q)
    ensures ScanQuoted([q] + Escape(v, q) + [q] + t) == Some((v, t))
  {
    QuotedRoundTrip(v, q, t);
    assert ([q] + Escape(v, q) + [q] + t)[1..] == Escape(v, q) + [q] + t;
  }

  // ---- trimming ---------------------------------------------------------------------

  lemma {:induction false} TrimStartPad(pad: string, s: string)
    requires AllWs(pad)
    ensures TrimStart(pad + s) == TrimStart(s)
  {
    if pad == [] {
      assert pad + s == s;
    } else {
      assert (pad + s)[1..] == pad[1..] + s;
      TrimStartPad(pad[1..], s);
    }
  }

  lemma {:induction false} TrimSeparatorsPad(pad: string, s: string)
    requires AllSep(pad)
    ensures TrimSeparators(pad + s) == TrimSeparators(s)
  {
    if pad == [] {
      assert pad + s == s;
    } else {
      assert (pad + s)[1..] == pad[1..] + s;
      TrimSeparatorsPad(pad[1..], s);
    }
  }

  /** A text is the spaces it starts with and the rest. */
  lemma {:induction false} TrimStartSplits(s: string) returns (pad: string)
    ensures AllWs(pad) && s == pad + TrimStart(s)
    ensures TrimStart(s) == [] || !IsWs(TrimStart(s)[0])
  {
    if s != [] && IsWs(s[0]) {
      var rest := TrimStartSplits(s[1..]);
      pad := [s[0]] + rest;
      assert s == [s[0]] + s[1..];
    } else {
      pad := [];
    }
  }

  /** Spaces after a trimmed text are trimmed off. */
  lemma {:induction false} TrimEndPad(v: string, pad: string)
    requires AllWs(pad) && (v == [] || !IsWs(v[|v| - 1]))
    ensures TrimEnd(v + pad) == v
  {
    if pad == [] {
      assert v + pad == v;
    } else {
      var s := v + pad;
      assert s[|s| - 1] == pad[|pad| - 1] && s[..|s| - 1] == v + pad[..|pad| - 1];
      TrimEndPad(v, pad[..|pad| - 1]);
    }
  }

  lemma TrimPad(v: string, pad: string)
    requires AllWs(pad) && Trimmed(v)
    ensures Trim(v + pad) == v
  {
    if v == [] {
      TrimStartPad(pad, []);
      assert v + pad == pad + [];
    } else {
      assert (v + pad)[0] == v[0];
      TrimEndPad(v, pad);
    }
  }

  lemma {:induction false} FindChar(s: string, c: char, t: string)
    requires c !in s
    ensures Find(s + [c] + t, [c]) == Some(|s|)
  {
    var u := s + [c] + t;
    if s == [] {
      assert u[..1] == [c];
    } else {
      assert u[..1][0] == s[0];
      assert u[1..] == s[1..] + [c] + t;
      FindChar(s[1..], c, t);
    }
  }

  lemma {:induction false} FindNoChar(s: string, c: char)
    requires c !in s
    ensures Find(s, [c]) == None
  {
    if s != [] {
      assert s[..1][0] == s[0];
      FindNoChar(s[1..], c);
    }
  }

  // ---- which delimiter closes a value -----------------------------------------------

  /** Trimming stops inside `v` or reaches what follows it. */
  lemma {:induction false} StructuralBefore(v: string, t: string)
    ensures Structural(v + STR_DELIM + t) <==> (TrimStart(v) != [] && TrimStart(v)[0] == ',')
  {
    var s := v + STR_DELIM + t;
    if v == [] {
      assert s[0] == '<';
    } else if IsWs(v[0]) {
      assert s[1..] == v[1..] + STR_DELIM + t;
      StructuralBefore(v[1..], t);
    }
  }

  /** Where the first delimiter in a text that ends in one is. */
  lemma {:induction false} FindDelimIn(v: string, t: string)
    ensures Find(v + STR_DELIM + t, STR_DELIM) == Some(if NoDelim(v) then |v| else Find(v, STR_DELIM).value)
  {
    if NoDelim(v) {
      FindDelimAfter(v, t);
    } else {
      var k := Find(v, STR_DELIM).value;
      assert Agree(v, v + STR_DELIM + t, k + |STR_DELIM|);
      FindLocal(v, v + STR_DELIM + t, STR_DELIM, k);
    }
  }

  /** Where the search goes after the first delimiter. */
  lemma ClosingAt(s: string, k: nat)
    requires Find(s, STR_DELIM) == Some(k)
    ensures k + |STR_DELIM| <= |s|
    ensures var after := s[k + |STR_DELIM|..];
            ClosingDelim(s)
            == if Structural(after) || ClosingDelim(after).None? then Some(k)
               else Some(k + |STR_DELIM| + ClosingDelim(after).value)
  {
    hide Structural, Find;
  }

  /** Whether a value's first delimiter is followed by a comma, and what is past it. */
  lemma InsideAt(v: string, k: nat)
    requires Find(v, STR_DELIM) == Some(k)
    ensures k + |STR_DELIM| <= |v|
    ensures var after := v[k + |STR_DELIM|..];
            StructuralInside(v) <==> StartsWithComma(after) || StructuralInside(after)
  {
    hide Find, TrimStart;
  }

  lemma NoDelimNoComma(v: string)
    requires NoDelim(v)
    ensures !StructuralInside(v) && ClosingDelim(v).None?
  {
    hide Find;
  }

  /** The first delimiter of a value that is closed by one more, and what is past it. */
  lemma FirstInside(v: string, t: string, k: nat)
    requires Find(v, STR_DELIM) == Some(k)
    ensures k + |STR_DELIM| <= |v|
    ensures Find(v + STR_DELIM + t, STR_DELIM) == Some(k)
    ensures (v + STR_DELIM + t)[k + |STR_DELIM|..] == v[k + |STR_DELIM|..] + STR_DELIM + t
  {
    hide Find;
    FindDelimIn(v, t);
  }

  /** A delimiter that precedes a comma closes a value before its end, whatever follows. */
  lemma {:induction false} ClosingInside(v: string, t: string)
    requires StructuralInside(v)
    ensures ClosingDelim(v + STR_DELIM + t).Some? && ClosingDelim(v + STR_DELIM + t).value < |v|
    decreases |v|
  {
    hide Structural, Find, StructuralInside, ClosingDelim, StartsWithComma;
    assert !NoDelim(v) by { if NoDelim(v) { NoDelimNoComma(v); } }
    var k := Find(v, STR_DELIM).value;
    var after := v[k + |STR_DELIM|..];
    FirstInside(v, t, k);
    ClosingAt(v + STR_DELIM + t, k);
    InsideAt(v, k);
    CommaIsStructural(after, t);
    if !StartsWithComma(after) { ClosingInside(after, t); }
  }

  lemma CommaIsStructural(v: string, t: string)
    ensures Structural(v + STR_DELIM + t) <==> StartsWithComma(v)
  {
    StructuralBefore(v, t);
  }

  /** Otherwise it is closed at its end, or later if what follows does not look like an end. */
  lemma {:induction false} ClosingOutside(v: string, t: string)
    requires !StructuralInside(v)
    ensures ClosingDelim(v + STR_DELIM + t)
            == if Structural(t) || ClosingDelim(t).None? then Some(|v|)
               else Some(|v| + |STR_DELIM| + ClosingDelim(t).value)
    decreases |v|
  {
    hide Structural, Find, StructuralInside, ClosingDelim, StartsWithComma;
    if NoDelim(v) {
      FindDelimAfter(v, t);
      ClosingAt(v + STR_DELIM + t, |v|);
      assert (v + STR_DELIM + t)[|v| + |STR_DELIM|..] == t;
    } else {
      var k := Find(v, STR_DELIM).value;
      var after := v[k + |STR_DELIM|..];
      FirstInside(v, t, k);
      ClosingAt(v + STR_DELIM + t, k);
      InsideAt(v, k);
      CommaIsStructural(after, t);
      ClosingOutside(after, t);
    }
  }

  /**
   * Exactly when a delimited value is closed at its own end: when no delimiter inside it
   * is followed, spaces apart, by a comma.
   */
  lemma ClosingDelimExact(v: string, t: string)
    requires Structural(t)
    ensures ClosingDelim(v + STR_DELIM + t) == Some(|v|) <==> !StructuralInside(v)
  {
    hide Structural, StructuralInside, ClosingDelim;
    if StructuralInside(v) { ClosingInside(v, t); } else { ClosingOutside(v, t); }
  }

  // ---- the parser reads what was written --------------------------------------------

  lemma ScanKeyPrinted(k: Key, t: string)
    requires KeyOk(k)
    ensures ScanKey(PrintKey(k) + ":" + t) == Some((k.key, ":" + t))
  {
    hide Escape, QuotedBody, Find, Trim;
    var s := PrintKey(k) + ":" + t;
    match k
    case QuotedKey(key, q) =>
      ScanQuotedRoundTrip(key, q, ":" + t);
      assert s == [q] + Escape(key, q) + [q] + (":" + t);
    case BareKey(key) => ScanBareKey(key, t);
  }

  lemma ScanBareKey(key: string, t: string)
    requires KeyOk(BareKey(key))
    ensures ScanKey(key + ":" + t) == Some((key, ":" + t))
  {
    hide Find, Trim;
    var s := key + ":" + t;
    FindChar(key, ':', t);
    TrimPad(key, []);
    assert key + [] == key;
    assert s[0] == key[0] && s[..|key|] == key && s[|key|..] == ":" + t;
  }

  /** A written value is read back, up to the next comma or the end. */
  lemma ScanValuePrinted(a: Arg, t: string)
    requires ArgReadable(a) && Structural(t)
    ensures ScanValue(TrimStart(PrintArg(a) + t)) == (ArgValue(a), if a.BareArg? then TrimStart(t) else t)
  {
    var s := PrintArg(a) + t;
    match a
    case Delimited(v) => ScanDelimited(v, t);
    case Quoted(v, q) =>
      NotDelim(s);
      ScanQuotedRoundTrip(v, q, t);
    case BareArg(v) =>
      if v == [] { assert v + t == t; ScanNothing(t); } else { ScanBare(v, t); }
  }

  lemma ScanDelimited(v: string, t: string)
    requires !StructuralInside(v) && Structural(t)
    ensures ScanValue(TrimStart(STR_DELIM + v + STR_DELIM + t)) == (Str(v), t)
  {
    hide ClosingDelim, StructuralInside, ScanQuoted, ParseScalar, Find, Trim, Structural;
    var s := STR_DELIM + v + STR_DELIM + t;
    var rest := v + STR_DELIM + t;
    assert TrimStart(s) == s;
    assert s[..|STR_DELIM|] == STR_DELIM && s[|STR_DELIM|..] == rest;
    ClosingDelimExact(v, t);
    assert rest[..|v|] == v && rest[|v| + |STR_DELIM|..] == t;
  }

  /** What is neither delimited nor quoted is read up to the next comma. */
  lemma BareIsRead(s: string)
    requires !StartsWith(s, STR_DELIM) && ScanQuoted(s).None?
    ensures var end := match Find(s, ",") case Some(k) => k case None => |s|;
            ScanValue(s) == (ParseScalar(Trim(s[..end])), s[end..])
  {
    hide StartsWith, ScanQuoted, Find, ParseScalar, Trim, ClosingDelim;
  }

  /** Where a text without commas goes on with nothing or with one. */
  lemma CutAtComma(x: string, rest: string)
    requires ',' !in x && (rest == [] || rest[0] == ',')
    ensures Find(x + rest, ",") == if rest == [] then None else Some(|x|)
    ensures (x + rest)[..|x|] == x && (x + rest)[|x|..] == rest
  {
    hide Find;
    CutJoin(x, rest);
    if rest == [] {
      FindNoChar(x, ',');
      assert x + rest == x;
    } else {
      FindChar(x, ',', rest[1..]);
      assert rest == [','] + rest[1..];
      Regroup(x, [','], rest[1..]);
    }
  }

  lemma ScanBare(v: string, t: string)
    requires ArgReadable(BareArg(v)) && v != [] && Structural(t)
    ensures ScanValue(TrimStart(v + t)) == (ParseScalar(v), TrimStart(t))
  {
    hide ParseScalar, Trim, Find, StartsWith, ScanValue;
    var s, rest := v + t, TrimStart(t);
    var pad := TrimStartSplits(t);
    assert TrimStart(s) == s && s[0] == v[0];
    assert Ends(t);
    NoDelimAcross(v, t);
    TrimPad(v, pad);
    Regroup(v, pad, rest);
    CutAtComma(v + pad, rest);
    BareIsRead(s);
  }

  /** No value at all is an empty one. */
  lemma ScanNothing(t: string)
    requires Structural(t)
    ensures ScanValue(TrimStart(t)) == (ParseScalar([]), TrimStart(t))
  {
    hide ParseScalar, ScanValue, Find, StartsWith;
    var rest := TrimStart(t);
    NotDelim(rest);
    assert [] + rest == rest;
    CutAtComma([], rest);
    BareIsRead(rest);
  }

  lemma AfterColonPrinted(gap: string, s: string)
    requires AllWs(gap)
    ensures AfterColon(":" + gap + s) == Some(TrimStart(s))
  {
    var t := ":" + gap + s;
    assert t[0] == ':' && t[1..] == gap + s;
    TrimStartPad(gap, s);
  }

  /** Separators before what is read next make no difference. */
  lemma SeparatorsAreSkipped(pad: string, s: string, m: Arguments)
    requires AllSep(pad)
    ensures ParseKv(pad + s, m) == ParseKv(s, m)
  {
    hide ScanKey, AfterColon, ScanValue, TrimSeparators;
    TrimSeparatorsPad(pad, s);
  }

  /** One written key is read, whatever its value is read as, and what that leaves is read next. */
  lemma KeyIsRead(pad: string, key: Key, gap: string, value: string, v: Value, rest: string, m: Arguments)
    requires AllSep(pad) && AllWs(gap) && KeyOk(key) && ScanValue(TrimStart(value)) == (v, rest)
    ensures ParseKv(pad + PrintKey(key) + ":" + gap + value, m) == ParseKv(rest, m[key.key := v])
  {
    hide TrimSeparators, ScanKey, AfterColon, ScanValue, PrintKey, TrimStart, ParseKv;
    var after := ":" + gap + value;
    var body := PrintKey(key) + after;
    assert pad + PrintKey(key) + ":" + gap + value == pad + body;
    SeparatorsAreSkipped(pad, body, m);
    KeyStartsText(key, after);
    assert body == PrintKey(key) + ":" + (gap + value) && after == ":" + (gap + value);
    ScanKeyPrinted(key, gap + value);
    AfterColonPrinted(gap, value);
    ParseStep(body, key.key, after, v, rest, m);
  }

  lemma ParseStep(s: string, key: string, after: string, v: Value, rest: string, m: Arguments)
    requires s != [] && TrimSeparators(s) == s && key != [] && ScanKey(s) == Some((key, after))
    requires AfterColon(after).Some? && ScanValue(AfterColon(after).value) == (v, rest)
    ensures ParseKv(s, m) == ParseKv(rest, m[key := v])
  {
    hide TrimSeparators, ScanKey, AfterColon, ScanValue;
  }

  lemma KeyStartsText(k: Key, t: string)
    requires KeyOk(k)
    ensures var s := PrintKey(k) + t; s != [] && TrimSeparators(s) == s
  {}

  lemma SpacesThenStructural(pad: string, t: string)
    requires AllWs(pad)
    ensures Structural(pad + t) == Structural(t)
  {
    TrimStartPad(pad, t);
  }

  /** One written argument is read, and what follows it is read next. */
  lemma PairIsRead(p: Pair, t: string, m: Arguments)
    requires PairReadable(p) && Structural(t)
    ensures ParseKv(PrintPair(p) + t, m) == ParseKv(t, m[p.key.key := ArgValue(p.arg)])
  {
    hide ScanValue, PrintArg, PrintKey, ArgValue, ParseKv, ArgReadable, KeyOk, Structural, TrimStart;
    var follow := p.tail + t;
    var value := PrintArg(p.arg) + follow;
    SpacesThenStructural(p.tail, t);
    ScanValuePrinted(p.arg, follow);
    var m' := m[p.key.key := ArgValue(p.arg)];
    var rest := if p.arg.BareArg? then TrimStart(follow) else follow;
    KeyIsRead(p.pad, p.key, p.gap, value, ArgValue(p.arg), rest, m);
    assert PrintPair(p) + t == p.pad + PrintKey(p.key) + ":" + p.gap + value;
    var pad := TrimStartSplits(follow);
    SeparatorsAreSkipped(pad, TrimStart(follow), m');
    SeparatorsAreSkipped(p.tail, t, m');
  }

  /**
   * The argument parser recovers every written argument, in any mix of syntaxes and with
   * any spaces and separators around; and for this a delimited value may even hold
   * delimiters, as long as none precedes a comma.
   */
  lemma {:induction false} ArgumentsRoundTrip(ps: seq<Pair>, close: string, m: Arguments)
    requires (forall i :: 0 <= i < |ps| ==> PairReadable(ps[i])) && AllSep(close)
    ensures ParseKv(PrintPairs(ps) + close, m) == Meaning(ps, m)
  {
    hide PairReadable, PrintPair, ArgValue, ParseKv, Structural;
    if ps == [] {
      SeparatorsAreNothing(close, m);
      assert [] + close == close;
    } else {
      var m' := m[ps[0].key.key := ArgValue(ps[0].arg)];
      if |ps| == 1 {
        SeparatorsAreStructural(close);
        PairIsRead(ps[0], close, m);
        SeparatorsAreNothing(close, m');
        assert Meaning(ps[1..], m') == m';
      } else {
        var more := PrintPairs(ps[1..]) + close;
        assert PrintPairs(ps) + close == PrintPair(ps[0]) + ("," + more);
        CommaStarts(more);
        PairIsRead(ps[0], "," + more, m);
        SeparatorsAreSkipped(",", more, m');
        ArgumentsRoundTrip(ps[1..], close, m');
      }
    }
  }

  lemma SeparatorsAreNothing(close: string, m: Arguments)
    requires AllSep(close)
    ensures ParseKv(close, m) == m
  {
    SeparatorsAreSkipped(close, [], m);
    assert close + [] == close;
  }

  lemma {:induction false} SeparatorsAreStructural(close: string)
    requires AllSep(close)
    ensures Structural(close)
  {
    if close != [] && IsWs(close[0]) { SeparatorsAreStructural(close[1..]); }
  }

  lemma CommaStarts(t: string)
    ensures Structural("," + t)
  {}
}
