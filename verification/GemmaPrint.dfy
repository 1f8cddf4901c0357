/**
 * How a model writes a call, in every syntax the parser accepts: bare or quoted keys;
 * delimited, quoted or bare values; and what such a call means.
 */
module GemmaPrint {
  import opened Common
  import opened Text
  import opened Gemma

  datatype Key = BareKey(key: string) | QuotedKey(key: string, q: char)

  datatype Arg = Delimited(v: string) | Quoted(v: string, q: char) | BareArg(v: string)

  /** One argument, with what stands before its key, after its colon and after its value. */
  datatype Pair = Pair(pad: string, key: Key, gap: string, arg: Arg, tail: string)

  /** How a call opens: any text before it, its name, and the spaces around that. */
  datatype Opening = Opening(glue: string, lead: string, name: string, gap: string)

  /** A call, and what stands before its closing brace. */
  datatype Written = Written(opening: Opening, pairs: seq<Pair>, close: string)

  // ---- printing ---------------------------------------------------------------------

  /** Escape the backslashes and the quote `q`. */
  function Escape(v: string, q: char): string {
    if v == [] then []
    else (if v[0] == '\\' || v[0] == q then ['\\', v[0]] else [v[0]]) + Escape(v[1..], q)
  }

  function PrintKey(k: Key): string {
    match k
    case BareKey(key) => key
    case QuotedKey(key, q) => [q] + Escape(key, q) + [q]
  }

  function PrintArg(a: Arg): string {
    match a
    case Delimited(v) => STR_DELIM + v + STR_DELIM
    case Quoted(v, q) => [q] + Escape(v, q) + [q]
    case BareArg(v) => v
  }

  function PrintPair(p: Pair): string { p.pad + PrintKey(p.key) + ":" + p.gap + PrintArg(p.arg) + p.tail }

  function PrintPairs(ps: seq<Pair>): string {
    if ps == [] then []
    else if |ps| == 1 then PrintPair(ps[0])
    else PrintPair(ps[0]) + "," + PrintPairs(ps[1..])
  }

  function PrintOpening(o: Opening): string { o.glue + CALL + o.lead + o.name + o.gap + "{" }

  function PrintCall(w: Written): string {
    PrintOpening(w.opening) + PrintPairs(w.pairs) + w.close + "}"
  }

  /** Calls in order, and whatever comes after the last. */
  function PrintCalls(ws: seq<Written>, end: string): string {
    if ws == [] then end else PrintCall(ws[0]) + PrintCalls(ws[1..], end)
  }

  // ---- meaning ----------------------------------------------------------------------

  function ArgValue(a: Arg): Value { if a.BareArg? then ParseScalar(a.v) else Str(a.v) }

  /** Later arguments override earlier ones with the same key. */
  function Meaning(ps: seq<Pair>, m: Arguments): Arguments {
    if ps == [] then m else Meaning(ps[1..], m[ps[0].key.key := ArgValue(ps[0].arg)])
  }

  function MeaningOf(w: Written): Call { Call(w.opening.name, Meaning(w.pairs, map[])) }

  function MeaningOfAll(ws: seq<Written>): seq<Call> {
    if ws == [] then [] else [MeaningOf(ws[0])] + MeaningOfAll(ws[1..])
  }

  // ---- what may be written ----------------------------------------------------------

  /** White space and commas, in any order and number. */
  predicate AllSep(s: string) { forall i :: 0 <= i < |s| ==> s[i] == ',' || IsWs(s[i]) }

  predicate Trimmed(s: string) { s == [] || (!IsWs(s[0]) && !IsWs(s[|s| - 1])) }

  predicate NoDelim(s: string) { Find(s, STR_DELIM).None? }

  predicate NoBrace(s: string) { '{' !in s && '}' !in s }

  predicate StartsWithComma(s: string) { TrimStart(s) != [] && TrimStart(s)[0] == ',' }

  /** A value a delimiter of which is followed, spaces apart, by a comma. */
  predicate StructuralInside(v: string)
    decreases |v|
  {
    match Find(v, STR_DELIM)
    case None => false
    case Some(k) => StartsWithComma(v[k + |STR_DELIM|..]) || StructuralInside(v[k + |STR_DELIM|..])
  }

  /** A quoted key is any text; a bare one must not look like anything else. */
  predicate KeyOk(k: Key) {
    && k.key != []
    && match k
       case QuotedKey(_, q) => IsQuote(q)
       case BareKey(key) =>
         Trimmed(key) && ':' !in key && ',' !in key && NoBrace(key) && NoDelim(key) && !IsQuote(key[0])
  }

  /** What the argument parser needs of a value. */
  predicate ArgReadable(a: Arg) {
    match a
    case Delimited(v) => !StructuralInside(v)
    case Quoted(_, q) => IsQuote(q)
    case BareArg(v) => Trimmed(v) && ',' !in v && NoDelim(v) && (v == [] || !IsQuote(v[0]))
  }

  // ---- what the scanner makes of it -------------------------------------------------

  /** The state after the whole of a text; none if the call ends inside it. */
  function Through(s: string, st: Scan): Option<Scan>
    decreases |s|
  {
    if s == [] then Some(st)
    else if Closes(s, st) then None
    else
      var (n, st') := Advance(s, st);
      Through(s[n..], st')
  }

  const VALUE_START := BODY_START.(at := ValueStart)

  /** Outside any string and at the call's own depth: the next brace is the call's. */
  predicate AtCallLevel(st: Option<Scan>) {
    st.Some? && st.value.depth == 1 && !st.value.inStr && st.value.quote.None?
  }

  /** What the scanner needs of a value besides, so that it sees the call's own brace. */
  predicate ArgOk(a: Arg) { ArgReadable(a) && AtCallLevel(Through(PrintArg(a), VALUE_START)) }

  predicate PairReadable(p: Pair) {
    AllSep(p.pad) && AllWs(p.gap) && AllWs(p.tail) && KeyOk(p.key) && ArgReadable(p.arg)
  }

  predicate PairOk(p: Pair) { PairReadable(p) && ArgOk(p.arg) }

  /** Any text in which no call opens may stand before one, the wire's own markers included. */
  predicate OpeningOk(o: Opening) {
    && FindOpen(o.glue).None? && AllWs(o.lead) && AllWs(o.gap)
    && o.name != [] && forall i :: 0 <= i < |o.name| ==> IsNameChar(o.name[i])
  }

  predicate WrittenOk(w: Written) {
    OpeningOk(w.opening) && AllSep(w.close) && forall i :: 0 <= i < |w.pairs| ==> PairOk(w.pairs[i])
  }
}
