/** Every value a call can carry can be written so that it comes back. */
module GemmaValueProofs {
  import opened Common
  import opened Text
  import opened Gemma
  import opened GemmaPrint
  import opened GemmaProofs
  import opened GemmaScanProofs

  // ---- scalars ----------------------------------------------------------------------

  function Digit(n: nat): char
    requires n < 10
  {
    '0' + n as char
  }

  function PrintNat(n: nat): (s: string)
    ensures s != []
  {
    if n < 10 then [Digit(n)] else PrintNat(n / 10) + [Digit(n % 10)]
  }

  function PrintInt(n: int): (s: string)
    ensures s != []
  {
    if n < 0 then "-" + PrintNat(-n) else PrintNat(n)
  }

  lemma {:induction false} DigitsRoundTrip(n: nat)
    ensures AllDigits(PrintNat(n)) && DigitsValue(PrintNat(n)) == n
  {
    var s := PrintNat(n);
    if n >= 10 {
      DigitsRoundTrip(n / 10);
      assert s[..|s| - 1] == PrintNat(n / 10);
    } else {
      assert s[..0] == [];
    }
  }

  lemma PrintedIntParses(n: int)
    requires -I64_MAX - 1 <= n <= I64_MAX
    ensures ParseI64(PrintInt(n)) == Some(n)
    ensures PrintInt(n)[0] == '-' || IsDigit(PrintInt(n)[0])
  {
    hide PrintNat;
    DigitsRoundTrip(if n < 0 then -n else n);
    if n < 0 {
      assert PrintInt(n)[1..] == PrintNat(-n);
    } else {
      assert IsDigit(PrintNat(n)[0]);
    }
  }

  lemma PrintedIntIsPlain(n: int)
    ensures forall c :: c in PrintInt(n) ==> c == '-' || IsDigit(c)
  {
    hide PrintNat;
    DigitsRoundTrip(if n < 0 then -n else n);
  }

  lemma IntRoundTrip(n: int)
    requires -0x8000_0000_0000_0000 <= n <= 0x7fff_ffff_ffff_ffff
    ensures ParseScalar(PrintInt(n)) == Int(n) && ArgOk(BareArg(PrintInt(n)))
  {
    hide PrintInt, ParseI64, IsFloatSpelling, Find;
    PrintedIntParses(n);
    PrintedIntIsPlain(n);
    var s := PrintInt(n);
    NoDelimWithout(s);
    assert s != [] && s[0] in s && s[|s| - 1] in s;
    BareIsOk(s);
  }

  // ---- values -----------------------------------------------------------------------

  /** What a call can carry and this model reads back: anything but a float. */
  predicate Carried(v: Value) {
    !v.Float? && (v.Int? ==> -I64_MAX - 1 <= v.n <= I64_MAX)
  }

  function WriteValue(v: Value): Arg {
    match v
    case Null => BareArg("null")
    case Bool(b) => BareArg(if b then "true" else "false")
    case Int(n) => BareArg(PrintInt(n))
    case Float(spelling) => BareArg(spelling)
    case Str(s) => Quoted(s, '"')
  }

  lemma WrittenValueIsRead(v: Value)
    requires Carried(v)
    ensures ArgOk(WriteValue(v)) && ArgValue(WriteValue(v)) == v
  {
    hide ParseI64, IsFloatSpelling, Find, PrintInt, Through;
    match v
    case Null => WordIsOk("null");
    case Bool(b) => WordIsOk(if b then "true" else "false");
    case Int(n) => IntRoundTrip(n);
    case Str(s) => QuotedIsOk(s, '"');
  }

  lemma WordIsOk(s: string)
    requires s == "null" || s == "true" || s == "false"
    ensures ArgOk(BareArg(s))
  {
    hide Through, Find;
    NoDelimWithout(s);
    BareIsOk(s);
  }

  function WriteArguments(kvs: seq<(string, Value)>): seq<Pair> {
    if kvs == [] then []
    else [Pair("", QuotedKey(kvs[0].0, '"'), " ", WriteValue(kvs[0].1), "")] + WriteArguments(kvs[1..])
  }

  function Insert(kvs: seq<(string, Value)>, m: Arguments): Arguments {
    if kvs == [] then m else Insert(kvs[1..], m[kvs[0].0 := kvs[0].1])
  }

  lemma {:induction false} WriteArgumentsMeans(kvs: seq<(string, Value)>, m: Arguments)
    requires forall i :: 0 <= i < |kvs| ==> kvs[i].0 != [] && Carried(kvs[i].1)
    ensures forall i :: 0 <= i < |WriteArguments(kvs)| ==> PairOk(WriteArguments(kvs)[i])
    ensures Meaning(WriteArguments(kvs), m) == Insert(kvs, m)
  {
    hide ArgOk, ArgValue, WriteValue;
    if kvs != [] {
      WrittenValueIsRead(kvs[0].1);
      OkIsReadable(WriteValue(kvs[0].1));
      WriteArgumentsMeans(kvs[1..], m[kvs[0].0 := kvs[0].1]);
      var ps := WriteArguments(kvs);
      assert ps[1..] == WriteArguments(kvs[1..]);
    }
  }

  lemma OkIsReadable(a: Arg)
    requires ArgOk(a)
    ensures ArgReadable(a)
  {}

  /**
   * Any call can be written: whatever its arguments' names and values, braces, quotes,
   * delimiters and whole calls inside them included, reading the JSON-like spelling of it
   * gives the call back.
   */
  lemma {:induction false} EveryCallCanBeWritten(glue: string, name: string, kvs: seq<(string, Value)>, end: string)
    requires FindOpen(glue).None? && FindOpen(end).None?
    requires name != [] && forall i :: 0 <= i < |name| ==> IsNameChar(name[i])
    requires forall i :: 0 <= i < |kvs| ==> kvs[i].0 != [] && Carried(kvs[i].1)
    ensures ParseCalls(PrintCalls([Written(Opening(glue, "", name, ""), WriteArguments(kvs), "")], end))
            == [Call(name, Insert(kvs, map[]))]
  {
    hide PairOk, PrintCalls, ParseCalls;
    var w := Written(Opening(glue, "", name, ""), WriteArguments(kvs), "");
    WriteArgumentsMeans(kvs, map[]);
    CallsRoundTrip([w], end);
    assert MeaningOfAll([w]) == [MeaningOf(w)];
  }
}
