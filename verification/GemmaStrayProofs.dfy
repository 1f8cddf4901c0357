/**
 * Delimited values that hold the delimiter: exactly when they come back, where they are
 * cut, what they swallow, and what becomes of the calls after them.
 */
module GemmaStrayProofs {
  import opened Common
  import opened Text
  import opened Gemma
  import opened GemmaPrint
  import opened GemmaProofs
  import opened GemmaScanProofs

  const IN_VALUE := BODY_START.(inStr := true, at := ValueInside)
  const OUT_VALUE := BODY_START.(at := ValueInside)

  /** Where the scanner stands after a value and its closing delimiter; none if the call ended. */
  function AfterValue(v: string): Option<Scan> { Through(v + STR_DELIM, IN_VALUE) }

  /** What of a text still belongs to the call. */
  function Seen(s: string, st: Scan): string {
    match ScanBody(s, st)
    case None => s
    case Some(n) => s[..n - 1]
  }

  /** What the parser gets to see from a last value on, when `t` follows it. */
  function SeenValue(v: string, t: string): string { Seen(STR_DELIM + (v + STR_DELIM + t), VALUE_START) }

  // ---- what is seen -----------------------------------------------------------------

  lemma SeenPast(x: string, t: string, st: Scan, mid: Scan, s: string)
    requires ScanBody(s, st) == Later(|x|, ScanBody(t, mid)) && s == x + t
    ensures Seen(s, st) == x + Seen(t, mid)
  {
    hide ScanBody;
    if ScanBody(t, mid).Some? { DropPast(x, t, ScanBody(t, mid).value - 1); }
  }

  lemma SeenFromDelim(v: string, t: string)
    ensures SeenValue(v, t) == STR_DELIM + Seen(v + STR_DELIM + t, IN_VALUE)
  {
    hide ScanBody, Seen;
    ThroughDelim(v + STR_DELIM + t, VALUE_START);
    SeenPast(STR_DELIM, v + STR_DELIM + t, VALUE_START, IN_VALUE, STR_DELIM + (v + STR_DELIM + t));
  }

  /** A text that ends in a delimiter is scanned the same whatever follows. */
  lemma DelimJoins(x: string, t: string, st: Scan)
    ensures Joins(x + STR_DELIM, t) && Settled(x + STR_DELIM, st)
  {
    assert (x + STR_DELIM)[|x + STR_DELIM| - 1] == '>';
  }

  /** A value that does not end the call is seen whole, and so is its closing delimiter. */
  lemma SeenWhole(v: string, t: string)
    requires AfterValue(v).Some?
    ensures SeenValue(v, t) == STR_DELIM + (v + STR_DELIM + Seen(t, AfterValue(v).value))
  {
    hide ScanBody, Through, Seen;
    DelimJoins(v, t, AfterValue(v).value);
    ScanJoined(v + STR_DELIM, t, IN_VALUE);
    SeenPast(v + STR_DELIM, t, IN_VALUE, AfterValue(v).value, v + STR_DELIM + t);
    SeenFromDelim(v, t);
  }

  /** One that does is seen up to its brace. */
  lemma SeenCut(v: string, t: string) returns (n: nat)
    requires AfterValue(v).None?
    ensures ScanBody(v + STR_DELIM, IN_VALUE) == ScanBody(v + STR_DELIM + t, IN_VALUE) == Some(n + 1)
    ensures n < |v| && v[n] == '}' && SeenValue(v, t) == STR_DELIM + v[..n]
  {
    hide ScanBody, Through;
    var x := v + STR_DELIM;
    DelimJoins(v, t, IN_VALUE);
    ScanJoined(x, t, IN_VALUE);
    n := ScanBody(x, IN_VALUE).value - 1;
    EndsAtBrace(x, IN_VALUE);
    NoBraceInDelim(v, n);
    assert (x + t)[..n] == v[..n];
    SeenFromDelim(v, t);
  }

  lemma NoBraceInDelim(v: string, n: nat)
    requires n < |v + STR_DELIM| && (v + STR_DELIM)[n] == '}'
    ensures n < |v| && v[n] == '}'
  {}

  // ---- the value that is read -------------------------------------------------------

  lemma ScanFromDelim(rest: string)
    ensures ScanValue(STR_DELIM + rest)
            == match ClosingDelim(rest)
               case Some(c) => (Str(rest[..c]), rest[c + |STR_DELIM|..])
               case None => (Str(rest), [])
  {
    hide ClosingDelim, ScanQuoted, ParseScalar, Trim, Find;
    var s := STR_DELIM + rest;
    assert s[..|STR_DELIM|] == STR_DELIM && s[|STR_DELIM|..] == rest;
  }

  lemma NoDelimHasNone(s: string)
    ensures ClosingDelim(s).None? <==> NoDelim(s)
  {
    hide Structural, Find;
  }

  /** What is read of a whole value, and what the parser goes on with. */
  function StrayRead(v: string, t: string): (string, string) {
    if Structural(t) || NoDelim(t) then (v, t)
    else
      NoDelimHasNone(t);
      var c := ClosingDelim(t).value;
      (v + STR_DELIM + t[..c], t[c + |STR_DELIM|..])
  }

  lemma WholeIsRead(v: string, t: string)
    requires !StructuralInside(v)
    ensures ScanValue(STR_DELIM + (v + STR_DELIM + t)) == (Str(StrayRead(v, t).0), StrayRead(v, t).1)
  {
    hide ClosingDelim, StructuralInside, NoDelim, ScanValue, Structural;
    var rest := v + STR_DELIM + t;
    NoDelimHasNone(t);
    ClosingOutside(v, t);
    ScanFromDelim(rest);
    if Structural(t) || NoDelim(t) {
      assert rest[..|v|] == v && rest[|v| + |STR_DELIM|..] == t;
    } else {
      var c := ClosingDelim(t).value;
      DropPast(v + STR_DELIM, t, c + |STR_DELIM|);
      TakePast(v + STR_DELIM, t, c);
    }
  }

  lemma TakePast(x: string, t: string, n: nat)
    requires n <= |t|
    ensures (x + t)[..|x| + n] == x + t[..n]
  {}

  lemma ReadIsShorter(v: string, t: string)
    requires StructuralInside(v)
    ensures ScanValue(STR_DELIM + (v + STR_DELIM + t)).0.Str?
    ensures |ScanValue(STR_DELIM + (v + STR_DELIM + t)).0.s| < |v|
  {
    hide ClosingDelim, StructuralInside, ScanValue;
    ClosingInside(v, t);
    ScanFromDelim(v + STR_DELIM + t);
  }

  lemma CutIsShorter(x: string, v: string)
    requires |x| < |v|
    ensures ScanValue(STR_DELIM + x).0.Str? && |ScanValue(STR_DELIM + x).0.s| < |v|
  {
    hide ClosingDelim, ScanValue;
    ScanFromDelim(x);
  }

  /**
   * Exactly when a last delimited value is read as it was written, whatever it holds and
   * whatever follows: it does not end the call, no delimiter in it precedes a comma, and
   * in what the call is taken to go on with the next thing is a comma or no delimiter is.
   */
  lemma StrayValueExact(v: string, t: string)
    ensures ScanValue(SeenValue(v, t)).0 == Str(v)
            <==> && AfterValue(v).Some? && !StructuralInside(v)
                 && var more := Seen(t, AfterValue(v).value); Structural(more) || NoDelim(more)
  {
    hide ClosingDelim, StructuralInside, NoDelim, ScanValue, Structural, Seen, Through, ScanBody;
    if AfterValue(v).None? {
      var n := SeenCut(v, t);
      CutIsShorter(v[..n], v);
    } else {
      var more := Seen(t, AfterValue(v).value);
      SeenWhole(v, t);
      if StructuralInside(v) {
        ReadIsShorter(v, more);
      } else {
        WholeIsRead(v, more);
        assert !(Structural(more) || NoDelim(more)) ==> |StrayRead(v, more).0| > |v|;
      }
    }
  }

  // ---- before the call's own brace --------------------------------------------------

  lemma {:induction false} PrefixNoDelim(t: string, k: nat)
    requires k <= |t| && NoDelim(t)
    ensures NoDelim(t[..k])
  {
    if k == 0 {
      assert t[..0] == [];
      NotDelim([]);
    } else {
      assert t[..k][1..] == t[1..][..k - 1];
      if k >= |STR_DELIM| { assert t[..k][..|STR_DELIM|] == t[..|STR_DELIM|]; }
      PrefixNoDelim(t[1..], k - 1);
    }
  }

  /** Spaces, the brace, and the rest of the reply. */
  function Brace(z: string, end: string): string { z + "}" + end }

  lemma BraceDelims(z: string, end: string)
    requires AllWs(z)
    ensures NoDelim(Brace(z, end)) == NoDelim(end) && !Structural(Brace(z, end)) && Structural(z)
  {
    FindPast(z + "}", end, STR_DELIM);
    TrimStartPad(z, "}" + end);
    assert Brace(z, end) == z + ("}" + end);
    TrimStartPad(z, []);
    assert z + [] == z;
  }

  /** Inside a string everything up to the first delimiter is the call's. */
  lemma {:induction false} StringIsSeen(s: string, st: Scan)
    requires st.inStr && st.quote.None?
    ensures NoDelim(s) ==> ScanBody(s, st).None? && Through(s, st) == Some(st)
    ensures !NoDelim(s) && ScanBody(s, st).Some? ==> ScanBody(s, st).value > Find(s, STR_DELIM).value + |STR_DELIM|
    decreases |s|
  {
    if s != [] && !StartsWith(s, STR_DELIM) { StringIsSeen(s[1..], st); }
  }

  lemma SeenInString(z: string, end: string, st: Scan)
    requires AllWs(z) && st.inStr && st.quote.None?
    ensures var more := Seen(Brace(z, end), st); NoDelim(more) == NoDelim(end) && !Structural(more)
  {
    hide ScanBody, Find;
    var t := Brace(z, end);
    BraceDelims(z, end);
    StringIsSeen(t, st);
    var more := Seen(t, st);
    if ScanBody(t, st).Some? {
      var k := Find(t, STR_DELIM).value;
      assert Agree(t, more, k + |STR_DELIM|);
      FindLocal(t, more, STR_DELIM, k);
      assert |z| < k by { FindPast(z + "}", end, STR_DELIM); }
      PrefixBrace(z, end, |more|);
    }
  }

  lemma PrefixBrace(z: string, end: string, n: nat)
    requires AllWs(z) && |z| < n <= |Brace(z, end)|
    ensures !Structural(Brace(z, end)[..n])
  {
    var x := Brace(z, end)[..n];
    assert x == z + x[|z|..] && x[|z|..][0] == '}';
    TrimStartPad(z, x[|z|..]);
  }

  lemma SeenIsPrefix(s: string, st: Scan)
    requires NoDelim(s)
    ensures NoDelim(Seen(s, st))
  {
    hide ScanBody;
    if ScanBody(s, st).Some? { PrefixNoDelim(s, ScanBody(s, st).value - 1); }
  }

  lemma AfterValueIsSound(v: string)
    requires AfterValue(v).Some?
    ensures Sound(AfterValue(v).value)
  {
    hide Through;
    ThroughKeepsSound(v + STR_DELIM, IN_VALUE);
  }

  /**
   * The same before the call's own brace, by where the value leaves the scanner. At the
   * call's level the brace is the call's. Inside a string it is not seen, and neither may
   * a delimiter be in all that follows. And with none in what follows it is enough that
   * the value does not end the call and none of its delimiters precedes a comma.
   */
  lemma ValueBeforeBrace(v: string, z: string, end: string)
    requires AllWs(z)
    ensures var same := ScanValue(SeenValue(v, Brace(z, end))).0 == Str(v);
            var after := AfterValue(v);
            && (AtCallLevel(after) ==> (same <==> !StructuralInside(v)))
            && (after.Some? && after.value.inStr ==> (same <==> !StructuralInside(v) && NoDelim(end)))
            && (NoDelim(end) ==> (same <==> after.Some? && !StructuralInside(v)))
  {
    hide Through, ScanBody, StructuralInside, NoDelim, ScanValue, Structural, Brace, SeenValue;
    var t := Brace(z, end);
    StrayValueExact(v, t);
    BraceDelims(z, end);
    if AfterValue(v).Some? {
      var st := AfterValue(v).value;
      AfterValueIsSound(v);
      if st.inStr { SeenInString(z, end, st); }
      if AtCallLevel(Some(st)) { SeenAtLevel(z, end, st); }
      if NoDelim(end) { SeenIsPrefix(t, st); }
    }
  }

  lemma SeenAtLevel(z: string, end: string, st: Scan)
    requires AllWs(z) && AtCallLevel(Some(st))
    ensures Seen(Brace(z, end), st) == z
  {
    hide ScanBody;
    WsIsSep(z);
    CloseEnds(z, end, st);
    assert Brace(z, end) == z + ("}" + end);
    assert Brace(z, end)[..|z|] == z;
  }

  // ---- one delimiter inside ---------------------------------------------------------

  /** A value that holds one delimiter, as the model writes it. */
  function StrayValue(a: string, b: string): string { a + STR_DELIM + b }

  lemma AfterStray(a: string, b: string)
    requires NoDelim(a)
    ensures AfterValue(StrayValue(a, b)) == Through(b + STR_DELIM, OUT_VALUE)
    ensures ScanBody(StrayValue(a, b) + STR_DELIM, IN_VALUE)
            == Later(|a| + |STR_DELIM|, ScanBody(b + STR_DELIM, OUT_VALUE))
  {
    hide Through, NoDelim, ScanBody;
    ThroughString(a, IN_VALUE, b + STR_DELIM);
    ScanString(a, IN_VALUE, b + STR_DELIM);
    assert StrayValue(a, b) + STR_DELIM == a + STR_DELIM + (b + STR_DELIM);
  }

  lemma ScanString(v: string, st: Scan, x: string)
    requires st.inStr && st.quote.None? && NoDelim(v)
    ensures ScanBody(v + STR_DELIM + x, st)
            == Later(|v| + |STR_DELIM|, ScanBody(x, st.(inStr := false, at := ValueInside)))
  {
    hide Through, ScanBody, NoDelim;
    var out := st.(inStr := false, at := ValueInside);
    ThroughString(v, st, []);
    ThroughNothing(out);
    assert v + STR_DELIM + [] == v + STR_DELIM;
    DelimJoins(v, x, out);
    ScanJoined(v + STR_DELIM, x, st);
  }

  lemma StrayInside(a: string, b: string)
    requires NoDelim(a) && NoDelim(b)
    ensures StructuralInside(StrayValue(a, b)) == StartsWithComma(b)
  {
    hide StructuralInside, Find, StartsWithComma;
    FindDelimAfter(a, b);
    InsideAt(StrayValue(a, b), |a|);
    assert StrayValue(a, b)[|a| + |STR_DELIM|..] == b;
    NoDelimNoComma(b);
  }

  /** Up to the stray delimiter the value is closed there, if something closes it there. */
  lemma ClosedAtStray(a: string, x: string)
    requires NoDelim(a) && (NoDelim(x) || Structural(x))
    ensures ScanValue(STR_DELIM + (a + STR_DELIM + x)) == (Str(a), x)
  {
    hide StructuralInside, ScanValue, Structural, NoDelim;
    NoDelimNoComma(a);
    WholeIsRead(a, x);
  }

  /**
   * What is read of a value with one delimiter in it, when no more follow in the reply:
   * the whole of it, exactly when the text after the delimiter neither ends the call nor
   * starts with a comma; and otherwise what is before the delimiter.
   */
  lemma OneStrayExact(a: string, b: string, z: string, end: string)
    requires NoDelim(a) && NoDelim(b) && NoDelim(end) && AllWs(z)
    ensures ScanValue(SeenValue(StrayValue(a, b), Brace(z, end))).0
            == Str(if Through(b + STR_DELIM, OUT_VALUE).Some? && !StartsWithComma(b) then StrayValue(a, b) else a)
  {
    hide Through, ScanBody, StructuralInside, NoDelim, ScanValue, Structural, Brace, SeenValue, Seen, StartsWithComma;
    var v, t := StrayValue(a, b), Brace(z, end);
    AfterStray(a, b);
    StrayInside(a, b);
    ValueBeforeBrace(v, z, end);
    if AfterValue(v).None? {
      StrayCutIsA(a, b, t);
    } else if StartsWithComma(b) {
      SeenWhole(v, t);
      CommaIsStructural(b, Seen(t, AfterValue(v).value));
      var x := b + STR_DELIM + Seen(t, AfterValue(v).value);
      ClosedAtStray(a, x);
      assert a + STR_DELIM + x == v + STR_DELIM + Seen(t, AfterValue(v).value);
    }
  }

  lemma StrayCutIsA(a: string, b: string, t: string)
    requires NoDelim(a) && NoDelim(b) && Through(b + STR_DELIM, OUT_VALUE).None?
    ensures var n := ScanBody(b + STR_DELIM, OUT_VALUE);
            && n.Some? && 0 < n.value <= |b|
            && ScanValue(SeenValue(StrayValue(a, b), t)) == (Str(a), b[..n.value - 1])
            && ScanBody(StrayValue(a, b) + STR_DELIM + t, IN_VALUE) == Some(|a| + |STR_DELIM| + n.value)
  {
    hide Through, ScanBody, NoDelim, ScanValue, SeenValue;
    var v := StrayValue(a, b);
    AfterStray(a, b);
    var m := SeenCut(v, t);
    ClosedInside(b + STR_DELIM, OUT_VALUE);
    var n := ScanBody(b + STR_DELIM, OUT_VALUE).value;
    assert v[..m] == a + STR_DELIM + b[..n - 1];
    PrefixNoDelim(b, n - 1);
    ClosedAtStray(a, b[..n - 1]);
  }

  // ---- counting braces --------------------------------------------------------------

  function Count(s: string, c: char): nat {
    if s == [] then 0 else (if s[0] == c then 1 else 0) + Count(s[1..], c)
  }

  /** Nowhere in a text are there more closing braces than opening ones and `depth - 1`. */
  predicate NoSurplus(b: string, depth: nat) {
    forall k :: 0 <= k <= |b| ==> Count(b[..k], '}') < depth + Count(b[..k], '{')
  }

  lemma CountStep(b: string, k: nat, c: char)
    requires 0 < k <= |b|
    ensures Count(b[..k], c) == (if b[0] == c then 1 else 0) + Count(b[1..][..k - 1], c)
  {
    assert b[..k][1..] == b[1..][..k - 1];
  }

  /** One character less, at the depth that leaves. */
  lemma NoSurplusStep(b: string, depth: nat)
    requires b != [] && depth > 0
    ensures NoSurplus(b, depth)
            <==> if b[0] == '}' then depth > 1 && NoSurplus(b[1..], depth - 1)
                 else NoSurplus(b[1..], if b[0] == '{' then depth + 1 else depth)
  {
    hide Count;
    var next: int := if b[0] == '}' then depth - 1 else if b[0] == '{' then depth + 1 else depth;
    CountNothing(b);
    forall k | 0 < k <= |b|
      ensures Count(b[..k], '}') < depth + Count(b[..k], '{')
              <==> Count(b[1..][..k - 1], '}') < next + Count(b[1..][..k - 1], '{')
    {
      CountStep(b, k, '}');
      CountStep(b, k, '{');
    }
    if NoSurplus(b, depth) {
      forall k | 0 <= k <= |b[1..]| ensures Count(b[1..][..k], '}') < next + Count(b[1..][..k], '{') {
        assert Count(b[..k + 1], '}') < depth + Count(b[..k + 1], '{');
        assert k + 1 - 1 == k;
      }
      assert b[0] == '}' ==> depth > 1 by { CountNothing(b[1..]); assert Count(b[1..][..0], '}') < next; }
    } else {
      var k :| 0 <= k <= |b| && Count(b[..k], '}') >= depth + Count(b[..k], '{');
      assert k > 0;
      assert Count(b[1..][..k - 1], '}') >= next + Count(b[1..][..k - 1], '{');
    }
  }

  lemma CountNothing(b: string)
    ensures Count(b[..0], '}') == 0 && Count(b[..0], '{') == 0
  {}

  /**
   * For text without quotes, that it does not end the call is a matter of counting: at no
   * point has it closed more braces than it has opened.
   */
  lemma {:induction false} SurplusEndsCall(b: string, st: Scan)
    requires NoDelim(b) && '"' !in b && '\'' !in b
    requires st.depth > 0 && !st.inStr && st.quote.None?
    ensures Through(b + STR_DELIM, st).Some? <==> NoSurplus(b, st.depth)
  {
    hide Through, NoSurplus, StartsWith;
    if b == [] {
      NothingStaysOpen(st);
      assert b + STR_DELIM == STR_DELIM + [];
      ThroughDelim([], st);
      ThroughNothing(st.(inStr := !st.inStr, at := ValueInside));
    } else {
      NoSurplusStep(b, st.depth);
      NoDelimBefore(b, []);
      assert b + STR_DELIM + [] == b + STR_DELIM;
      assert b + STR_DELIM == [b[0]] + (b[1..] + STR_DELIM);
      NoDelimTail(b);
      if b[0] == '}' && st.depth == 1 {
        ClosesNow(b + STR_DELIM, st);
      } else {
        ThroughFirst(b[0], b[1..] + STR_DELIM, st);
        SurplusEndsCall(b[1..], Plain(st, b[0]));
      }
    }
  }

  lemma NothingStaysOpen(st: Scan)
    requires st.depth > 0
    ensures NoSurplus([], st.depth)
  {
    CountNothing([]);
  }

  lemma ClosesNow(s: string, st: Scan)
    requires Closes(s, st)
    ensures Through(s, st).None?
  {}

  /** So, for such text: the value is whole exactly when no prefix has a brace too many. */
  lemma OneStrayCounted(a: string, b: string, z: string, end: string)
    requires NoDelim(a) && NoDelim(b) && NoDelim(end) && AllWs(z) && '"' !in b && '\'' !in b
    ensures ScanValue(SeenValue(StrayValue(a, b), Brace(z, end))).0
            == Str(if NoSurplus(b, 1) && !StartsWithComma(b) then StrayValue(a, b) else a)
  {
    hide Through, NoDelim, ScanValue, NoSurplus, StartsWithComma, SeenValue;
    SurplusEndsCall(b, OUT_VALUE);
    OneStrayExact(a, b, z, end);
  }

  // ---- pairs of delimiters ----------------------------------------------------------

  /** Text outside strings after which a delimiter opens one, nothing having ended the call. */
  predicate Passed(x: string) {
    NoDelim(x) && Through(x + STR_DELIM, OUT_VALUE).Some? && Through(x + STR_DELIM, OUT_VALUE).value.inStr
  }

  /** The same, and as many braces closed in it as opened. */
  predicate Level(x: string) { Passed(x) && Through(x + STR_DELIM, OUT_VALUE).value.depth == 1 }

  /** A value cut up at its delimiters: text inside strings, then text between two of them. */
  function Spell(parts: seq<(string, string)>, last: string): string {
    if parts == [] then last
    else parts[0].0 + STR_DELIM + (parts[0].1 + STR_DELIM + Spell(parts[1..], last))
  }

  lemma InStringAgain(x: string)
    requires Passed(x)
    ensures Through(x + STR_DELIM, OUT_VALUE).value
            == IN_VALUE.(depth := Through(x + STR_DELIM, OUT_VALUE).value.depth)
    ensures Through(x + STR_DELIM, OUT_VALUE).value.depth > 0
  {
    hide Through, NoDelim;
    ThroughKeepsSound(x + STR_DELIM, OUT_VALUE);
  }

  /** From inside a string over one part, back inside a string. */
  lemma ThroughPart(lead: string, x: string, t: string)
    requires NoDelim(lead) && Passed(x)
    ensures Through(lead + STR_DELIM + (x + STR_DELIM + t), IN_VALUE)
            == Through(t, Through(x + STR_DELIM, OUT_VALUE).value)
  {
    hide Through, NoDelim;
    ThroughString(lead, IN_VALUE, x + STR_DELIM + t);
    DelimJoins(x, t, Through(x + STR_DELIM, OUT_VALUE).value);
    ScanJoined(x + STR_DELIM, t, OUT_VALUE);
  }

  /**
   * Parity decides: a value whose delimiters come in pairs around text with balanced braces
   * leaves the scanner where it was, so such a value may be written like any other and
   * calls may follow it.
   */
  lemma {:induction false} PairedIsAtLevel(parts: seq<(string, string)>, last: string)
    requires NoDelim(last) && forall i :: 0 <= i < |parts| ==> NoDelim(parts[i].0) && Level(parts[i].1)
    ensures AfterValue(Spell(parts, last)) == Some(OUT_VALUE)
  {
    hide Through, NoDelim, Level;
    if parts == [] {
      ThroughString(last, IN_VALUE, []);
      ThroughNothing(OUT_VALUE);
      assert last + STR_DELIM + [] == last + STR_DELIM;
    } else {
      LevelStaysIn(parts[0].1);
      var rest := Spell(parts[1..], last) + STR_DELIM;
      ThroughPart(parts[0].0, parts[0].1, rest);
      PairedIsAtLevel(parts[1..], last);
      assert Spell(parts, last) + STR_DELIM == parts[0].0 + STR_DELIM + (parts[0].1 + STR_DELIM + rest);
    }
  }

  lemma LevelStaysIn(x: string)
    requires Level(x)
    ensures Passed(x) && Through(x + STR_DELIM, OUT_VALUE) == Some(IN_VALUE)
  {
    hide Through;
    InStringAgain(x);
  }

  /** And one delimiter more leaves it inside a string. */
  lemma {:induction false} UnpairedIsInString(parts: seq<(string, string)>, last: string, x: string)
    requires NoDelim(last) && Level(x)
    requires forall i :: 0 <= i < |parts| ==> NoDelim(parts[i].0) && Level(parts[i].1)
    ensures AfterValue(Spell(parts, last + STR_DELIM + x)) == Some(IN_VALUE)
  {
    hide Through, NoDelim, Level;
    if parts == [] {
      LevelStaysIn(x);
      ThroughPart(last, x, []);
      ThroughNothing(IN_VALUE);
      assert last + STR_DELIM + x + STR_DELIM == last + STR_DELIM + (x + STR_DELIM + []);
    } else {
      LevelStaysIn(parts[0].1);
      var rest := Spell(parts[1..], last + STR_DELIM + x) + STR_DELIM;
      ThroughPart(parts[0].0, parts[0].1, rest);
      UnpairedIsInString(parts[1..], last, x);
      assert Spell(parts, last + STR_DELIM + x) + STR_DELIM
             == parts[0].0 + STR_DELIM + (parts[0].1 + STR_DELIM + rest);
    }
  }

  /** So a value with its delimiters in pairs, none before a comma, may be written. */
  lemma PairedIsOk(parts: seq<(string, string)>, last: string)
    requires NoDelim(last) && forall i :: 0 <= i < |parts| ==> NoDelim(parts[i].0) && Level(parts[i].1)
    requires !StructuralInside(Spell(parts, last))
    ensures ArgOk(Delimited(Spell(parts, last)))
  {
    hide Through, NoDelim, Level, StructuralInside, Spell;
    var v := Spell(parts, last);
    PairedIsAtLevel(parts, last);
    ThroughDelim(v + STR_DELIM, VALUE_START);
    assert PrintArg(Delimited(v)) == STR_DELIM + (v + STR_DELIM);
  }

  /** And a value may be written exactly when it leaves the scanner at the call's level. */
  lemma DelimitedIsOkExactly(v: string)
    ensures ArgOk(Delimited(v)) <==> !StructuralInside(v) && AtCallLevel(AfterValue(v))
  {
    hide Through, StructuralInside;
    ThroughDelim(v + STR_DELIM, VALUE_START);
    assert PrintArg(Delimited(v)) == STR_DELIM + (v + STR_DELIM);
  }
}
