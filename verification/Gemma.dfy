/**
 * Gemma's native tool calls: the brace-and-quote scanner that says where a call ends and
 * the key-value parser that reads what is in it, as functions of the text still ahead.
 */
module Gemma {
  import opened Common
  import opened Text

  /** The delimiter of a string value. */
  const STR_DELIM := "<|\"|>"

  /** A JSON scalar; a float is kept as it was spelled. */
  datatype Value = Null | Bool(b: bool) | Int(n: int) | Float(spelling: string) | Str(s: string)

  type Arguments = map<string, Value>

  datatype Call = Call(name: string, arguments: Arguments)

  predicate IsQuote(c: char) { c == '"' || c == '\'' }

  // ---- quoted strings ---------------------------------------------------------------

  function Unescape(c: char): string {
    if c == '\\' || c == '"' || c == '\'' then [c] else ['\\', c]
  }

  /** The value up to the closing `q`, and what follows it; an open end takes everything. */
  function QuotedBody(s: string, q: char): (r: (string, string))
    ensures |r.1| <= |s|
  {
    if s == [] then ([], [])
    else if s[0] == '\\' then
      if |s| == 1 then ("\\", [])
      else
        var r := QuotedBody(s[2..], q);
        (Unescape(s[1]) + r.0, r.1)
    else if s[0] == q then ([], s[1..])
    else
      var r := QuotedBody(s[1..], q);
      ([s[0]] + r.0, r.1)
  }

  /** `scan_quoted`. */
  function ScanQuoted(s: string): (r: Option<(string, string)>)
    ensures r.Some? ==> |r.value.1| < |s|
  {
    if s == [] || !IsQuote(s[0]) then None else Some(QuotedBody(s[1..], s[0]))
  }

  // ---- delimited strings ------------------------------------------------------------

  /** What follows a delimiter that really closes a value: nothing, or the next key. */
  predicate Structural(after: string) {
    var t := TrimStart(after);
    t == [] || t[0] == ','
  }

  /** `closing_delim`: the first structural delimiter, else the last one. */
  function ClosingDelim(s: string): (r: Option<nat>)
    ensures r.Some? ==> r.value + |STR_DELIM| <= |s|
    decreases |s|
  {
    match Find(s, STR_DELIM)
    case None => None
    case Some(k) =>
      var next := k + |STR_DELIM|;
      if Structural(s[next..]) then Some(k)
      else
        match ClosingDelim(s[next..])
        case None => Some(k)
        case Some(j) => Some(next + j)
  }

  // ---- scalars ----------------------------------------------------------------------

  predicate IsDigit(c: char) { '0' <= c <= '9' }

  predicate AllDigits(s: string) { forall i :: 0 <= i < |s| ==> IsDigit(s[i]) }

  function DigitsValue(s: string): nat
    requires AllDigits(s)
  {
    if s == [] then 0 else 10 * DigitsValue(s[..|s| - 1]) + (s[|s| - 1] as int - '0' as int)
  }

  const I64_MAX: int := 0x7fff_ffff_ffff_ffff

  /** `str::parse::<i64>`. */
  function ParseI64(s: string): Option<int> {
    var signed := s != [] && (s[0] == '+' || s[0] == '-');
    var digits := if signed then s[1..] else s;
    if digits == [] || !AllDigits(digits) then None
    else
      var d: int := DigitsValue(digits);
      var n := if s[0] == '-' then -d else d;
      if -I64_MAX - 1 <= n <= I64_MAX then Some(n) else None
  }

  /** How many digits a text starts with. */
  function DigitRun(s: string): (n: nat)
    ensures n <= |s|
  {
    if s != [] && IsDigit(s[0]) then 1 + DigitRun(s[1..]) else 0
  }

  predicate IsExponent(s: string) {
    s == [] ||
    ((s[0] == 'e' || s[0] == 'E') &&
      var digits := if |s| > 1 && (s[1] == '+' || s[1] == '-') then s[2..] else s[1..];
      digits != [] && AllDigits(digits))
  }

  function Lower(s: string): string {
    if s == [] then []
    else [if 'A' <= s[0] <= 'Z' then s[0] + ' ' else s[0]] + Lower(s[1..])
  }

  /** What `str::parse::<f64>` accepts. */
  predicate IsFloatSpelling(s: string) {
    var body := if s != [] && (s[0] == '+' || s[0] == '-') then s[1..] else s;
    var whole := DigitRun(body);
    var rest := body[whole..];
    Lower(body) in {"inf", "infinity", "nan"} ||
    (if rest != [] && rest[0] == '.' then
       var fraction := DigitRun(rest[1..]);
       whole + fraction > 0 && IsExponent(rest[1 + fraction..])
     else whole > 0 && IsExponent(rest))
  }

  /** `parse_scalar`. */
  function ParseScalar(s: string): Value {
    if s == "true" then Bool(true)
    else if s == "false" then Bool(false)
    else if s == "null" then Null
    else if ParseI64(s).Some? then Int(ParseI64(s).value)
    else if IsFloatSpelling(s) then Float(s)
    else Str(s)
  }

  // ---- the argument parser ----------------------------------------------------------

  function TrimSeparators(s: string): (r: string)
    ensures |r| <= |s|
  {
    if s != [] && (s[0] == ',' || IsWs(s[0])) then TrimSeparators(s[1..]) else s
  }

  /** A key and what follows it: quoted, or up to the first colon. */
  function ScanKey(s: string): (r: Option<(string, string)>)
    ensures r.Some? ==> |r.value.1| <= |s|
  {
    var quoted := ScanQuoted(s);
    if quoted.Some? then quoted
    else
      match Find(s, ":")
      case None => None
      case Some(p) => Some((Trim(s[..p]), s[p..]))
  }

  /** A value and what follows it; nothing follows a delimited value that never closes. */
  function ScanValue(s: string): (r: (Value, string))
    ensures |r.1| <= |s|
  {
    if StartsWith(s, STR_DELIM) then
      var rest := s[|STR_DELIM|..];
      match ClosingDelim(rest)
      case Some(end) => (Str(rest[..end]), rest[end + |STR_DELIM|..])
      case None => (Str(rest), [])
    else
      match ScanQuoted(s)
      case Some((value, rest)) => (Str(value), rest)
      case None =>
        var end := match Find(s, ",") case Some(k) => k case None => |s|;
        (ParseScalar(Trim(s[..end])), s[end..])
  }

  /** Past the separator after a key, if one is there. */
  function AfterColon(s: string): (r: Option<string>)
    ensures r.Some? ==> |r.value| < |s|
  {
    var t := TrimStart(s);
    TrimStartShorter(s);
    if t == [] || t[0] != ':' then None
    else
      TrimStartShorter(t[1..]);
      Some(TrimStart(t[1..]))
  }

  lemma {:induction false} TrimStartShorter(s: string)
    ensures |TrimStart(s)| <= |s|
  {
    if s != [] { TrimStartShorter(s[1..]); }
  }

  /** `parse_kv_args`, from `s` on, with `m` read so far. */
  function ParseKv(s: string, m: Arguments): Arguments
    decreases |s|
  {
    var t := TrimSeparators(s);
    if t == [] then m
    else
      match ScanKey(t)
      case None => m
      case Some((key, after)) =>
        match AfterColon(after)
        case None => m
        case Some(value) =>
          if key == [] then m
          else
            var (v, rest) := ScanValue(value);
            ParseKv(rest, m[key := v])
  }

  // ---- the body scanner -------------------------------------------------------------

  /** Where in a `key:value` pair the scanner is. */
  datatype At = KeyStart | KeyInside | ValueStart | ValueInside

  datatype Scan = Scan(depth: nat, inStr: bool, quote: Option<char>, at: At)

  const BODY_START := Scan(1, false, None, KeyStart)

  /** The state after a character outside any string that does not end the call. */
  function Plain(st: Scan, ch: char): Scan {
    if ch == '{' then st.(depth := st.depth + 1, at := KeyStart)
    else if ch == '}' then st.(depth := if st.depth > 0 then st.depth - 1 else 0, at := ValueInside)
    else if ch == ',' then st.(at := KeyStart)
    else if ch == ':' && (st.at.KeyStart? || st.at.KeyInside?) then st.(at := ValueStart)
    else if IsQuote(ch) && st.at.KeyStart? then st.(quote := Some(ch), at := KeyInside)
    else if IsQuote(ch) && st.at.ValueStart? then st.(quote := Some(ch), at := ValueInside)
    else if IsWs(ch) then st
    else st.(at := if st.at.KeyStart? || st.at.KeyInside? then KeyInside else ValueInside)
  }

  /** How many characters the scanner takes at once, and the state after them. */
  function Advance(s: string, st: Scan): (r: (nat, Scan))
    requires s != []
    ensures 0 < r.0 <= |s|
  {
    if st.quote.None? && StartsWith(s, STR_DELIM) then (|STR_DELIM|, st.(inStr := !st.inStr, at := ValueInside))
    else if st.inStr then (1, st)
    else if st.quote.Some? then
      if s[0] == '\\' then (Min(2, |s|), st)
      else (1, st.(quote := if s[0] == st.quote.value then None else st.quote))
    else (1, Plain(st, s[0]))
  }

  /** Whether the next character is the brace that closes the call. */
  predicate Closes(s: string, st: Scan) {
    s != [] && s[0] == '}' && st.depth == 1 && !st.inStr && st.quote.None?
  }

  /** `scan_call_body`: how far ahead the call ends, its brace included. */
  function ScanBody(s: string, st: Scan): (r: Option<nat>)
    ensures r.Some? ==> 0 < r.value <= |s|
    decreases |s|
  {
    if s == [] then None
    else if Closes(s, st) then Some(1)
    else
      var (n, st') := Advance(s, st);
      Later(n, ScanBody(s[n..], st'))
  }

  // ---- whole replies ----------------------------------------------------------------

  predicate IsNameChar(c: char) {
    'a' <= c <= 'z' || 'A' <= c <= 'Z' || IsDigit(c) || c == '.' || c == '_' || c == '-'
  }

  function NameRun(s: string): (n: nat)
    ensures n <= |s|
  {
    if s != [] && IsNameChar(s[0]) then 1 + NameRun(s[1..]) else 0
  }

  function WsRun(s: string): (n: nat)
    ensures n <= |s|
  {
    if s != [] && IsWs(s[0]) then 1 + WsRun(s[1..]) else 0
  }

  /** Past the spaces ahead. */
  function AfterWs(s: string): (r: string)
    ensures |r| <= |s|
  {
    s[WsRun(s)..]
  }

  const CALL := "call:"

  /** `call:\s*([A-Za-z0-9_.\-]+)\s*\{` at the start of a text: the name, and its length. */
  function MatchOpen(s: string): (r: Option<(string, nat)>)
    ensures r.Some? ==> |CALL| < r.value.1 <= |s|
  {
    if !StartsWith(s, CALL) then None
    else
      var name := AfterWs(s[|CALL|..]);
      var brace := AfterWs(name[NameRun(name)..]);
      if NameRun(name) == 0 || brace == [] || brace[0] != '{' then None
      else Some((name[..NameRun(name)], |s| - |brace| + 1))
  }

  /** The leftmost opening ahead: the call's name, and where its body starts. */
  function FindOpen(s: string): (r: Option<(string, nat)>)
    ensures r.Some? ==> 0 < r.value.1 <= |s|
  {
    var m := MatchOpen(s);
    if m.Some? then m
    else if s == [] then None
    else
      match FindOpen(s[1..])
      case None => None
      case Some((name, body)) => Some((name, body + 1))
  }

  /** The first call ahead and what is left after it; nothing is after one that never ends. */
  function NextCall(s: string): (r: Option<(Call, Option<string>)>)
    ensures r.Some? && r.value.1.Some? ==> |r.value.1.value| < |s|
  {
    match FindOpen(s)
    case None => None
    case Some((name, body)) =>
      match ScanBody(s[body..], BODY_START)
      case Some(n) => Some((Call(name, ParseKv(s[body..body + n - 1], map[])), Some(s[body + n..])))
      case None => Some((Call(name, ParseKv(s[body..], map[])), None))
  }

  /** `parse_native_tool_calls`. */
  function ParseCalls(s: string): seq<Call>
    decreases |s|
  {
    match NextCall(s)
    case None => []
    case Some((call, None)) => [call]
    case Some((call, Some(rest))) => [call] + ParseCalls(rest)
  }
}
