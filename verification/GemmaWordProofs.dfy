/** What bare words, numbers and escapes mean; and replies written out in full. */
module GemmaWordProofs {
  import opened Common
  import opened Text
  import opened Gemma
  import opened GemmaPrint
  import opened GemmaProofs
  import opened GemmaScanProofs
  import opened GemmaValueProofs
  import opened GemmaStrayProofs
  import opened GemmaStrayCalls

  // ---- which bare texts are strings -------------------------------------------------

  /** A character a number can be spelled with. */
  predicate Numeric(c: char) { IsDigit(c) || c == '+' || c == '-' || c == '.' || c == 'e' || c == 'E' }

  predicate AllNumeric(s: string) { forall i :: 0 <= i < |s| ==> Numeric(s[i]) }

  predicate HasDigit(s: string) { exists i :: 0 <= i < |s| && '0' <= s[i] <= '9' }

  /** A text without the sign it may start with. */
  function Unsigned(s: string): string { if s != [] && (s[0] == '+' || s[0] == '-') then s[1..] else s }

  lemma {:induction false} DigitRunIsDigits(s: string)
    ensures forall i :: 0 <= i < DigitRun(s) ==> IsDigit(s[i])
  {
    if s != [] && IsDigit(s[0]) { DigitRunIsDigits(s[1..]); }
  }

  lemma ExponentIsNumeric(s: string)
    requires IsExponent(s)
    ensures AllNumeric(s)
  {
    if s != [] {
      var k := if |s| > 1 && (s[1] == '+' || s[1] == '-') then 2 else 1;
      assert AllDigits(s[k..]);
      assert forall i :: k <= i < |s| ==> s[i] == s[k..][i - k];
    }
  }

  /** A float is spelled with digits and what goes with them, or is one of three words. */
  lemma FloatIsNumeric(s: string)
    requires IsFloatSpelling(s) && Lower(Unsigned(s)) !in {"inf", "infinity", "nan"}
    ensures AllNumeric(s) && HasDigit(s)
  {
    hide Lower;
    var body := Unsigned(s);
    var whole := DigitRun(body);
    var rest := body[whole..];
    DigitRunIsDigits(body);
    NumericBody(body, whole, rest);
    var k := |s| - |body|;
    assert forall i :: k <= i < |s| ==> s[i] == body[i - k];
    var i :| 0 <= i < |body| && '0' <= body[i] <= '9';
    assert s[i + k] == body[i];
  }

  lemma NumericBody(body: string, whole: nat, rest: string)
    requires whole <= |body| && rest == body[whole..] && forall i :: 0 <= i < whole ==> IsDigit(body[i])
    requires if rest != [] && rest[0] == '.' then
               var fraction := DigitRun(rest[1..]); whole + fraction > 0 && IsExponent(rest[1 + fraction..])
             else whole > 0 && IsExponent(rest)
    ensures AllNumeric(body) && HasDigit(body)
  {
    hide IsExponent;
    if rest != [] && rest[0] == '.' {
      var fraction := DigitRun(rest[1..]);
      DigitRunIsDigits(rest[1..]);
      ExponentIsNumeric(rest[1 + fraction..]);
      forall i | whole <= i < |body| ensures Numeric(body[i]) {
        var j := i - whole;
        assert body[i] == rest[j];
        if 0 < j <= fraction { assert rest[j] == rest[1..][j - 1]; }
        if j > fraction { assert rest[j] == rest[1 + fraction..][j - 1 - fraction]; }
      }
      if whole > 0 { assert IsDigit(body[0]); } else { assert body[whole + 1] == rest[1..][0] && IsDigit(rest[1..][0]); }
    } else {
      ExponentIsNumeric(rest);
      assert forall i :: whole <= i < |body| ==> body[i] == rest[i - whole];
      assert IsDigit(body[0]);
    }
  }

  lemma IntIsNumeric(s: string)
    requires ParseI64(s).Some?
    ensures AllNumeric(s) && HasDigit(s)
  {
    hide DigitsValue;
    var digits := Unsigned(s);
    var k := |s| - |digits|;
    assert forall i :: k <= i < |s| ==> s[i] == digits[i - k];
    assert IsDigit(s[k]);
  }

  /**
   * A bare text is a string, and that string, unless it is one of the three words or can be
   * a number: it is if any character of it could not stand in one, or if none is a digit
   * and it is not a spelling of infinity or of no number.
   */
  lemma BareTextIsString(s: string)
    requires s != "true" && s != "false" && s != "null"
    requires Lower(Unsigned(s)) !in {"inf", "infinity", "nan"}
    requires !AllNumeric(s) || !HasDigit(s)
    ensures ParseScalar(s) == Str(s)
  {
    hide ParseI64, IsFloatSpelling, Lower;
    if ParseI64(s).Some? { IntIsNumeric(s); }
    if IsFloatSpelling(s) { FloatIsNumeric(s); }
  }

  /** So a call with such a bare argument gives it back, whatever follows the call. */
  lemma BareTextRoundTrip(o: Opening, key: string, s: string, end: string)
    requires OpeningOk(o) && KeyOk(BareKey(key)) && ArgOk(BareArg(s))
    requires s != "true" && s != "false" && s != "null"
    requires Lower(Unsigned(s)) !in {"inf", "infinity", "nan"} && (!AllNumeric(s) || !HasDigit(s))
    ensures ParseCalls(PrintOpening(o) + key + ":" + s + "}" + end)
            == [Call(o.name, map[key := Str(s)])] + ParseCalls(end)
  {
    hide ParseCalls, ParseScalar, Through, KeyOk, ArgReadable, OpeningOk, PrintOpening, Lower;
    var p := Pair("", BareKey(key), "", BareArg(s), "");
    var w := Written(o, [p], "");
    BareTextIsString(s);
    PairIsOk(p);
    CallIsRead(w, end);
    OnePairMeans(p);
    RegroupPrinted(PrintOpening(o), key, s, end);
    assert PrintPairs([p]) == PrintPair(p);
  }

  lemma PairIsOk(p: Pair)
    requires p.pad == [] && p.gap == [] && p.tail == [] && KeyOk(p.key) && ArgOk(p.arg)
    ensures PairOk(p)
  {}

  lemma RegroupPrinted(pre: string, key: string, s: string, end: string)
    ensures pre + ("" + key + ":" + "" + s + "") + "" + "}" + end == pre + key + ":" + s + "}" + end
  {}

  // ---- a brace in a bare value ------------------------------------------------------

  /** A bare value that is one pair in braces, its key quoted. */
  function Nested(v: string, q: char, w: string): string { "{" + ([q] + Escape(v, q) + [q] + (":" + (w + "}"))) }

  /**
   * A bare value may be an object: a call ends behind it, not in it, whatever braces its
   * quoted key holds.
   */
  lemma NestedIsWhole(v: string, q: char, w: string)
    requires IsQuote(q)
    requires w != [] && NoBrace(w) && ',' !in w && '<' !in w && !IsQuote(w[0]) && !IsWs(w[0])
    ensures Through(Nested(v, q, w), VALUE_START) == Some(VALUE_START.(at := ValueInside))
  {
    hide Through, ScanBody, NoDelim;
    var inside := Scan(2, false, None, KeyStart);
    var quoted := [q] + Escape(v, q) + [q];
    NotDelim(Nested(v, q, w));
    ThroughFirst('{', quoted + (":" + (w + "}")), VALUE_START);
    ThroughWholeQuoted(v, q, inside);
    ScanJoined(quoted, ":" + (w + "}"), inside);
    NotDelim(":" + (w + "}"));
    ThroughFirst(':', w + "}", inside.(at := KeyInside));
    NoDelimWithout(w);
    ThroughBare(w, inside.(at := ValueStart));
    ScanJoined(w, "}", inside.(at := ValueStart));
    ThroughOne('}', inside.(at := ValueInside));
  }

  lemma {:induction false} EscapeKeeps(v: string, q: char, c: char)
    requires c !in v && c != '\\' && c != q
    ensures c !in Escape(v, q)
  {
    if v != [] { EscapeKeeps(v[1..], q, c); }
  }

  /** And it is read as the text it is. */
  lemma NestedIsRead(o: Opening, key: string, v: string, q: char, w: string, end: string)
    requires OpeningOk(o) && KeyOk(BareKey(key)) && IsQuote(q) && ',' !in v && '<' !in v
    requires w != [] && NoBrace(w) && ',' !in w && '<' !in w && !IsQuote(w[0]) && !IsWs(w[0])
    ensures var s := "{" + [q] + Escape(v, q) + [q] + ":" + w + "}";
            ParseCalls(PrintOpening(o) + key + ":" + s + "}" + end)
            == [Call(o.name, map[key := Str(s)])] + ParseCalls(end)
  {
    hide ParseCalls, Through, KeyOk, OpeningOk, PrintOpening, Find;
    var s := Nested(v, q, w);
    assert s == "{" + [q] + Escape(v, q) + [q] + ":" + w + "}";
    NestedIsWhole(v, q, w);
    NestedIsBare(v, q, w);
    BareTextRoundTrip(o, key, s, end);
  }

  lemma NestedIsBare(v: string, q: char, w: string)
    requires IsQuote(q) && ',' !in v && '<' !in v && ',' !in w && '<' !in w
    ensures var s := Nested(v, q, w);
            && ArgReadable(BareArg(s)) && !AllNumeric(s) && Lower(Unsigned(s)) !in {"inf", "infinity", "nan"}
            && s != "true" && s != "false" && s != "null"
  {
    hide Find;
    var s := Nested(v, q, w);
    EscapeKeeps(v, q, ',');
    EscapeKeeps(v, q, '<');
    assert s[0] == '{' && s[|s| - 1] == '}' && ',' !in s && '<' !in s;
    NoDelimWithout(s);
    assert !Numeric(s[0]) && Lower(Unsigned(s))[0] == '{';
  }

  // ---- numbers ----------------------------------------------------------------------

  lemma {:induction false} DigitRunAll(s: string, t: string)
    requires AllDigits(s) && (t == [] || !IsDigit(t[0]))
    ensures DigitRun(s + t) == |s|
  {
    if s == [] {
      assert s + t == t;
    } else {
      assert (s + t)[1..] == s[1..] + t;
      DigitRunAll(s[1..], t);
    }
  }

  /** A sign, or none. */
  predicate IsSign(s: string) { s == "" || s == "+" || s == "-" }

  /** An exponent as it is spelled. */
  function Exponent(e: char, sign: string, digits: string): string { [e] + sign + digits }

  lemma ExponentIsRead(e: char, sign: string, digits: string)
    requires (e == 'e' || e == 'E') && IsSign(sign) && digits != [] && AllDigits(digits)
    ensures IsExponent(Exponent(e, sign, digits))
  {
    var x := Exponent(e, sign, digits);
    CutJoin([e] + sign, digits);
    assert sign != "" ==> x[1] == sign[0];
    assert sign == "" ==> x[1] == digits[0];
  }

  /**
   * Digits with a point in front, among or behind them are a float, kept as it is spelled;
   * so are digits with an exponent, and any of these with a sign.
   */
  lemma DecimalIsFloat(sign: string, a: string, b: string, e: char, esign: string, d: string)
    requires IsSign(sign) && AllDigits(a) && AllDigits(b) && (a != [] || b != [])
    requires (e == 'e' || e == 'E') && IsSign(esign) && d != [] && AllDigits(d)
    ensures ParseScalar(sign + (a + ("." + b))) == Float(sign + (a + ("." + b)))
    ensures var x := [e] + esign + d;
            && ParseScalar(sign + (a + ("." + (b + x)))) == Float(sign + (a + ("." + (b + x))))
            && (a != [] ==> ParseScalar(sign + (a + x)) == Float(sign + (a + x)))
  {
    hide ParseScalar;
    var x := Exponent(e, esign, d);
    assert !IsDigit(x[0]);
    ExponentIsRead(e, esign, d);
    assert b + [] == b;
    PointIsFloat(sign, a, b, []);
    PointIsFloat(sign, a, b, x);
    if a != [] { NoPointIsFloat(sign, a, x); }
  }

  lemma PointIsFloat(sign: string, a: string, b: string, x: string)
    requires IsSign(sign) && AllDigits(a) && AllDigits(b) && (a != [] || b != [])
    requires IsExponent(x)
    ensures ParseScalar(sign + (a + ("." + (b + x)))) == Float(sign + (a + ("." + (b + x))))
  {
    hide IsExponent, DigitsValue, Lower, ParseScalar;
    var body := a + ("." + (b + x));
    ExponentStarts(x);
    DigitRunAll(a, "." + (b + x));
    DigitRunAll(b, x);
    CutJoin(a, "." + (b + x));
    CutJoin(".", b + x);
    DropPast(".", b + x, |b|);
    CutJoin(b, x);
    assert body[|a|] == '.' && (body[0] == '.' || IsDigit(body[0]));
    SignedFloat(sign, body, |a|);
  }

  lemma NoPointIsFloat(sign: string, a: string, x: string)
    requires IsSign(sign) && AllDigits(a) && a != [] && x != [] && IsExponent(x)
    ensures ParseScalar(sign + (a + x)) == Float(sign + (a + x))
  {
    hide IsExponent, DigitsValue, Lower, ParseScalar;
    ExponentStarts(x);
    DigitRunAll(a, x);
    CutJoin(a, x);
    assert (a + x)[|a|] == x[0] && IsDigit((a + x)[0]);
    SignedFloat(sign, a + x, |a|);
  }

  lemma ExponentStarts(x: string)
    requires IsExponent(x)
    ensures x != [] ==> !IsDigit(x[0]) && x[0] != '.'
  {}

  /** What is spelled like a float and holds something besides digits is one, sign or no sign. */
  lemma SignedFloat(sign: string, body: string, at: nat)
    requires IsSign(sign) && at < |body| && !IsDigit(body[at]) && (body[0] == '.' || IsDigit(body[0]))
    requires var whole := DigitRun(body);
             var rest := body[whole..];
             if rest != [] && rest[0] == '.' then
               whole + DigitRun(rest[1..]) > 0 && IsExponent(rest[1 + DigitRun(rest[1..])..])
             else whole > 0 && IsExponent(rest)
    ensures ParseScalar(sign + body) == Float(sign + body)
  {
    hide ParseI64, IsFloatSpelling, ParseScalar, DigitRun, IsExponent, Unsigned;
    SignGoes(sign, body);
    UnsignedFloat(sign + body, body);
    UnsignedNoInt(sign + body, body, at);
    SpelledFloat(sign + body);
  }

  lemma SpelledFloat(s: string)
    requires s != [] && (IsDigit(s[0]) || s[0] in ".+-") && ParseI64(s).None? && IsFloatSpelling(s)
    ensures ParseScalar(s) == Float(s)
  {
    hide ParseI64, IsFloatSpelling;
    assert s[0] != 't' && s[0] != 'f' && s[0] != 'n';
  }

  lemma SignGoes(sign: string, body: string)
    requires IsSign(sign) && body != [] && (body[0] == '.' || IsDigit(body[0]))
    ensures Unsigned(sign + body) == body
    ensures sign + body != [] && (IsDigit((sign + body)[0]) || (sign + body)[0] in ".+-")
  {
    CutJoin(sign, body);
    assert sign == "" ==> sign + body == body;
  }

  lemma UnsignedFloat(s: string, body: string)
    requires Unsigned(s) == body
    requires var whole := DigitRun(body);
             var rest := body[whole..];
             if rest != [] && rest[0] == '.' then
               whole + DigitRun(rest[1..]) > 0 && IsExponent(rest[1 + DigitRun(rest[1..])..])
             else whole > 0 && IsExponent(rest)
    ensures IsFloatSpelling(s)
  {
    hide Lower, DigitRun, IsExponent;
  }

  lemma UnsignedNoInt(s: string, body: string, at: nat)
    requires Unsigned(s) == body && at < |body| && !IsDigit(body[at])
    ensures ParseI64(s).None?
  {
    hide DigitsValue;
  }

  /** A plus sign before a number says nothing. */
  lemma PlusIsRead(n: nat)
    requires n <= 0x7fff_ffff_ffff_ffff
    ensures ParseScalar("+" + PrintNat(n)) == Int(n)
  {
    hide PrintNat, IsFloatSpelling;
    DigitsRoundTrip(n);
    assert ("+" + PrintNat(n))[1..] == PrintNat(n);
  }

  /** An integer no 64 bits hold is a float. */
  lemma BigIntIsFloat(n: int)
    requires n < -0x8000_0000_0000_0000 || n > 0x7fff_ffff_ffff_ffff
    ensures ParseScalar(PrintInt(n)) == Float(PrintInt(n))
  {
    hide PrintNat, Lower, DigitsValue;
    var digits := PrintNat(if n < 0 then -n else n);
    DigitsRoundTrip(if n < 0 then -n else n);
    var s := PrintInt(n);
    if n < 0 { assert s[1..] == digits; } else { assert IsDigit(s[0]); }
    DigitRunAll(digits, []);
    assert digits + [] == digits && digits[|digits|..] == [];
  }

  /** Infinity and no number, in any case and with any sign, are floats too. */
  lemma NanIsFloat()
    ensures ParseScalar("NaN") == Float("NaN") && ParseScalar("-inf") == Float("-inf")
    ensures ParseScalar("Infinity") == Float("Infinity")
  {
    hide ParseScalar;
    BareNanIsFloat();
    MinusInfIsFloat();
    InfinityIsFloat();
  }

  lemma BareNanIsFloat()
    ensures ParseScalar("NaN") == Float("NaN")
  {
    assert "NaN"[1..] == "aN" && "aN"[1..] == "N" && "N"[1..] == "";
    assert Lower("NaN") == "nan" && !IsDigit('N');
  }

  lemma MinusInfIsFloat()
    ensures ParseScalar("-inf") == Float("-inf")
  {
    assert "-inf"[1..] == "inf" && "inf"[1..] == "nf" && "nf"[1..] == "f" && "f"[1..] == "";
    assert Lower("inf") == "inf" && !IsDigit('i');
  }

  lemma InfinityIsFloat()
    ensures ParseScalar("Infinity") == Float("Infinity")
  {
    assert Lower("Infinity") == "infinity" by { LowerInfinity(); }
    hide Lower;
    assert !IsDigit('I');
  }

  lemma LowerInfinity()
    ensures Lower("Infinity") == "infinity"
  {
    assert Lower("Inf") == "inf" && Lower("ini") == "ini" && Lower("ty") == "ty" by {
      assert "Inf"[1..] == "nf" && "nf"[1..] == "f" && "f"[1..] == "";
      assert "ini"[1..] == "ni" && "ni"[1..] == "i" && "i"[1..] == "" && "ty"[1..] == "y" && "y"[1..] == "";
    }
    hide Lower;
    LowerJoin("ini", "ty");
    LowerJoin("Inf", "ini" + "ty");
    assert "Inf" + ("ini" + "ty") == "Infinity" && "inf" + ("ini" + "ty") == "infinity";
  }

  lemma {:induction false} LowerJoin(a: string, b: string)
    ensures Lower(a + b) == Lower(a) + Lower(b)
  {
    if a == [] {
      assert a + b == b;
    } else {
      assert (a + b)[1..] == a[1..] + b;
      LowerJoin(a[1..], b);
    }
  }

  // ---- escapes ----------------------------------------------------------------------

  /** Reading past an escaped text. */
  lemma {:induction false} QuotedPrefix(v: string, q: char, x: string)
    requires IsQuote(q)
    ensures QuotedBody(Escape(v, q) + x, q) == (v + QuotedBody(x, q).0, QuotedBody(x, q).1)
  {
    hide QuotedBody;
    if v == [] {
      assert Escape(v, q) + x == x && v + QuotedBody(x, q).0 == QuotedBody(x, q).0;
    } else {
      var one := if v[0] == '\\' || v[0] == q then ['\\', v[0]] else [v[0]];
      QuotedPrefix(v[1..], q, x);
      OneQuoted(v[0], q, Escape(v[1..], q) + x);
      Regroup(one, Escape(v[1..], q), x);
      assert [v[0]] + (v[1..] + QuotedBody(x, q).0) == v + QuotedBody(x, q).0;
    }
  }

  /**
   * In a quoted string a backslash is only an escape before a quote, either one, or another
   * backslash; before anything else it stays, and so does what follows it.
   */
  lemma BackslashIsKept(v: string, c: char, u: string, q: char, t: string)
    requires q == '"' || q == '\''
    ensures ScanQuoted([q] + (Escape(v, q) + (['\\', c] + (Escape(u, q) + [q] + t))))
            == Some((v + (if c == '\\' || c == '"' || c == '\'' then [c] else ['\\', c]) + u, t))
  {
    hide QuotedBody;
    var x := Escape(u, q) + [q] + t;
    var y := ['\\', c] + x;
    QuotedRoundTrip(u, q, t);
    EscapeIsRead(c, q, x);
    QuotedPrefix(v, q, y);
    assert ([q] + (Escape(v, q) + y))[1..] == Escape(v, q) + y;
    var e := if c == '\\' || c == '"' || c == '\'' then [c] else ['\\', c];
    Regroup(v, e, u);
  }

  lemma EscapeIsRead(c: char, q: char, x: string)
    ensures QuotedBody(['\\', c] + x, q)
            == ((if c == '\\' || c == '"' || c == '\'' then [c] else ['\\', c]) + QuotedBody(x, q).0, QuotedBody(x, q).1)
  {
    assert (['\\', c] + x)[2..] == x;
  }

  /** A quoted string that is never closed takes all there is, a last backslash included. */
  lemma OpenQuoteTakesAll(v: string, q: char)
    requires q == '"' || q == '\''
    ensures ScanQuoted([q] + Escape(v, q)) == Some((v, []))
    ensures ScanQuoted([q] + (Escape(v, q) + "\\")) == Some((v + "\\", []))
  {
    hide QuotedBody;
    QuotedPrefix(v, q, []);
    QuotedPrefix(v, q, "\\");
    assert Escape(v, q) + [] == Escape(v, q) && ([q] + Escape(v, q))[1..] == Escape(v, q);
    CutJoin([q], Escape(v, q) + "\\");
    QuotedNothing(q);
    assert v + [] == v;
  }

  lemma QuotedNothing(q: char)
    ensures QuotedBody([], q) == ([], []) && QuotedBody("\\", q) == ("\\", [])
  {}

  // ---- where reading stops ----------------------------------------------------------

  /** A key that is empty, bare or quoted, ends the arguments. */
  lemma EmptyKeyStops(t: string, m: Arguments)
    ensures ParseKv(":" + t, m) == m && ParseKv("\"\":" + t, m) == m && ParseKv("'':" + t, m) == m
  {
    hide ParseKv;
    BareEmptyKey(t, m);
    QuotedEmptyKey('"', t, m);
    QuotedEmptyKey('\'', t, m);
    assert "\"\":" + t == ['"'] + ['"'] + ":" + t && "'':" + t == ['\''] + ['\''] + ":" + t;
  }

  lemma BareEmptyKey(t: string, m: Arguments)
    ensures ParseKv(":" + t, m) == m
  {
    hide ScanValue;
    assert ":" + t == [] + ":" + t;
    FindChar([], ':', t);
    assert (":" + t)[..0] == [];
  }

  lemma QuotedEmptyKey(q: char, t: string, m: Arguments)
    requires IsQuote(q)
    ensures ParseKv([q] + [q] + ":" + t, m) == m
  {
    hide ScanValue, ScanQuoted;
    ScanQuotedRoundTrip([], q, ":" + t);
    assert [q] + Escape([], q) + [q] + (":" + t) == [q] + [q] + ":" + t;
  }

  /** A call cut off inside its last delimited value is recovered, with as much of it as there is. */
  lemma CutOffCall(o: Opening, ps: seq<Pair>, x: string)
    requires OpeningOk(o) && FreePairs(ps) && NoDelim(x)
    ensures ParseCalls(PrintOpening(o) + (Front(ps) + (STR_DELIM + x))) == [Call(o.name, Meaning(WithValue(ps, x), map[]))]
  {
    hide OpeningOk, FreePairs, NoDelim, Through, ScanBody, ParseCalls, ParseKv, Meaning, Front, PrintOpening, ScanValue;
    hide WithValue, Seen, CallsAfter;
    var y := STR_DELIM + x;
    assert ps != [] by { FreeIsSome(ps); }
    OpeningIsFound(o, Front(ps) + y);
    FrontIsScanned(ps, y);
    BodyIsSeen(PrintOpening(o) + (Front(ps) + y), o.name, |PrintOpening(o)|, Front(ps), y);
    StringIsSeen(x, IN_VALUE);
    ThroughDelim(x, VALUE_START);
    NothingAfter(y);
    ScanFromDelim(x);
    NoDelimHasNone(x);
    assert TrimStart(y) == y by { assert y[0] == '<'; }
    FrontIsRead(ps, y, x, [], map[]);
    SeparatorsAreNothing([], Meaning(WithValue(ps, x), map[]));
  }

  lemma FreeIsSome(ps: seq<Pair>)
    requires FreePairs(ps)
    ensures ps != []
  {}

  lemma NothingAfter(y: string)
    requires ScanBody(y, VALUE_START).None?
    ensures Seen(y, VALUE_START) == y && CallsAfter(y, VALUE_START) == []
  {}

  // ---- in full ----------------------------------------------------------------------

  lemma LetterOpening(o: Opening)
    requires ':' !in o.glue && AllWs(o.lead) && AllWs(o.gap)
    requires o.name != [] && forall i :: 0 <= i < |o.name| ==> IsNameChar(o.name[i])
    ensures OpeningOk(o)
  {
    hide MatchOpen;
    NoColonNoOpen(o.glue);
  }

  /** Text without a colon opens no call. */
  lemma {:induction false} NoColonNoOpen(s: string)
    requires ':' !in s
    ensures FindOpen(s).None?
  {
    hide NameAndBrace, MatchOpen;
    OpensByParts(s);
    if |s| >= |CALL| { assert s[..|CALL|][4] == s[4]; }
    if s != [] { NoColonNoOpen(s[1..]); }
  }

  const READ := Opening("", "", "Read", "")
  const PATH := "src/main.rs"

  /** One reply, to the letter: a bare path. */
  lemma BarePathIsRead()
    ensures ParseCalls("call:Read{path:src/main.rs}") == [Call("Read", map["path" := Str("src/main.rs")])]
  {
    hide ParseCalls, Through, Find, Lower, FindOpen, PrintOpening, OpeningOk, KeyOk, ArgReadable, NoBrace, AllNumeric;
    LetterOpening(READ);
    PathIsBare();
    BareIsOk(PATH);
    BareTextRoundTrip(READ, "path", PATH, "");
    NothingIsRead();
    PathIsSpelled();
  }

  lemma PathIsSpelled()
    ensures PrintOpening(READ) + "path" + ":" + PATH + "}" + "" == "call:Read{path:src/main.rs}"
  {}

  lemma PathIsBare()
    ensures KeyOk(BareKey("path")) && ArgReadable(BareArg(PATH)) && NoBrace(PATH) && !AllNumeric(PATH)
    ensures Lower(Unsigned(PATH)) !in {"inf", "infinity", "nan"}
    ensures PATH != "true" && PATH != "false" && PATH != "null"
  {
    hide KeyOk, ArgReadable, NoBrace, Lower;
    PathKeyIsOk();
    PathArgIsOk();
    assert PATH[3] == '/' && !Numeric(PATH[3]);
    LowerLength(PATH);
    assert Unsigned(PATH) == PATH && |Lower(PATH)| == 11;
  }

  lemma PathKeyIsOk()
    ensures KeyOk(BareKey("path"))
  {
    hide Find;
    NoDelimWithout("path");
  }

  lemma PathArgIsOk()
    ensures ArgReadable(BareArg(PATH)) && NoBrace(PATH)
  {
    hide Find;
    NoDelimWithout(PATH);
  }

  lemma {:induction false} LowerLength(s: string)
    ensures |Lower(s)| == |s|
  {
    if s != [] { LowerLength(s[1..]); }
  }

  lemma NothingIsRead()
    ensures ParseCalls("") == []
  {
    assert FindOpen("").None? by { NothingOpens(); }
  }

  const SPACED := Opening("", " ", "mcp_x.Read-2", " ")
  const BRACED := Pair("", BareKey("k"), " ", Delimited("a, {b}"), " ")

  /** Another: every kind of character a name may have, spaces in the opening, a delimited value. */
  lemma DelimitedIsRead()
    ensures ParseCalls("call: mcp_x.Read-2 {k: <|\"|>a, {b}<|\"|> }") == [Call("mcp_x.Read-2", map["k" := Str("a, {b}")])]
  {
    hide ParseCalls, PrintOpening, OpeningOk, PairOk, PrintPair;
    LetterOpening(SPACED);
    BracedIsOk();
    var w := Written(SPACED, [BRACED], "");
    CallIsRead(w, "");
    OnePairMeans(BRACED);
    NothingIsRead();
    BracedIsSpelled();
    assert PrintPairs([BRACED]) == PrintPair(BRACED);
  }

  lemma BracedIsOk()
    ensures PairOk(BRACED)
  {
    hide Through, Find, StructuralInside;
    NoDelimWithout("k");
    NoDelimWithout("a, {b}");
    NoDelimNoComma("a, {b}");
    PairedIsOk([], "a, {b}");
  }

  lemma BracedIsSpelled()
    ensures PrintOpening(SPACED) + PrintPair(BRACED) + "" + "}" + "" == "call: mcp_x.Read-2 {k: <|\"|>a, {b}<|\"|> }"
  {
    OpeningIsSpelled();
    PairIsSpelled();
    hide PrintOpening, PrintPair;
    assert "call: mcp_x.Read-2 {" + "k: <|\"|>a, {b}<|\"|> " + "}" == "call: mcp_x.Read-2 {k: <|\"|>a, {b}<|\"|> }";
  }

  lemma OpeningIsSpelled()
    ensures PrintOpening(SPACED) == "call: mcp_x.Read-2 {"
  {}

  lemma PairIsSpelled()
    ensures PrintPair(BRACED) == "k: <|\"|>a, {b}<|\"|> "
  {
    assert PrintArg(BRACED.arg) == "<|\"|>a, {b}<|\"|>";
    assert BeforeValue(BRACED) == "k: ";
    assert PrintPair(BRACED) == BeforeValue(BRACED) + PrintArg(BRACED.arg) + BRACED.tail;
  }
}
