/** The loops of the Gemma parser, each proved to compute what `Gemma` says. */
module GemmaScan {
  import opened Common
  import opened Text
  import opened Gemma

  /** `scan_call_body`: the body, and the position just past the matching brace. */
  method ScanCallBody(text: string, start: nat) returns (r: Option<(string, nat)>)
    requires start <= |text|
    ensures r == match ScanBody(text[start..], BODY_START)
                 case None => None
                 case Some(n) => Some((text[start..start + n - 1], start + n))
  {
    hide ScanBody;
    var depth, inStr, at := 1, false, KeyStart;
    var quote: Option<char> := None;
    var idx := start;
    ghost var whole := ScanBody(text[start..], BODY_START);
    while idx < |text|
      invariant start <= idx <= |text| && depth > 0
      invariant Later(start, whole) == Later(idx, ScanBody(text[idx..], Scan(depth, inStr, quote, at)))
    {
      BodyStep(text, idx, Scan(depth, inStr, quote, at));
      if quote.None? && StartsWith(text[idx..], STR_DELIM) {
        inStr, at := !inStr, ValueInside;
        idx := idx + |STR_DELIM|;
        continue;
      }
      var ch := text[idx];
      idx := idx + 1;
      if inStr { continue; }
      if quote.Some? {
        if ch == '\\' {
          if idx < |text| { idx := idx + 1; }
        } else if ch == quote.value {
          quote := None;
        }
        continue;
      }
      if ch == '{' {
        depth, at := depth + 1, KeyStart;
      } else if ch == '}' {
        depth := depth - 1;
        if depth == 0 { return Some((text[start..idx - 1], idx)); }
        at := ValueInside;
      } else if ch == ',' {
        at := KeyStart;
      } else if ch == ':' && (at == KeyStart || at == KeyInside) {
        at := ValueStart;
      } else if IsQuote(ch) && at == KeyStart {
        quote, at := Some(ch), KeyInside;
      } else if IsQuote(ch) && at == ValueStart {
        quote, at := Some(ch), ValueInside;
      } else if !IsWs(ch) {
        at := if at == KeyStart || at == KeyInside then KeyInside else ValueInside;
      }
    }
    ScanNothing(Scan(depth, inStr, quote, at));
    assert text[idx..] == [];
    return None;
  }

  lemma ScanNothing(st: Scan)
    ensures ScanBody([], st) == None
  {}

  /** One round of that loop. */
  lemma BodyStep(text: string, idx: nat, st: Scan)
    requires idx < |text|
    ensures var s := text[idx..];
            ScanBody(s, st)
            == if Closes(s, st) then Some(1)
               else Later(Advance(s, st).0, ScanBody(text[idx + Advance(s, st).0..], Advance(s, st).1))
  {
    hide Advance, Closes;
    var s := text[idx..];
    TailSlice(text, idx, Advance(s, st).0, |s|);
  }

  /** `closing_delim`. */
  method FindClosingDelim(rest: string) returns (r: Option<nat>)
    ensures r == ClosingDelim(rest)
  {
    hide ClosingDelim, Structural, Find;
    r := None;
    var from := 0;
    assert rest[0..] == rest;
    var rel := Find(rest, STR_DELIM);
    while rel.Some?
      invariant from <= |rest| && rel == Find(rest[from..], STR_DELIM)
      invariant ClosingDelim(rest) == Else(Later(from, ClosingDelim(rest[from..])), r)
      decreases |rest| - from
    {
      var at := from + rel.value;
      TailSlice(rest, from, rel.value + |STR_DELIM|, |rest| - from);
      ClosingRound(rest[from..], rel.value);
      if Structural(rest[at + |STR_DELIM|..]) { return Some(at); }
      r := Some(at);
      from := at + |STR_DELIM|;
      rel := Find(rest[from..], STR_DELIM);
    }
    NoMoreDelims(rest[from..]);
  }

  function Else(a: Option<nat>, b: Option<nat>): Option<nat> { if a.Some? then a else b }

  lemma NoMoreDelims(s: string)
    requires Find(s, STR_DELIM).None?
    ensures ClosingDelim(s).None?
  {}

  /** One round of that loop. */
  lemma ClosingRound(s: string, k: nat)
    requires Find(s, STR_DELIM) == Some(k)
    ensures k + |STR_DELIM| <= |s|
    ensures var after := s[k + |STR_DELIM|..];
            ClosingDelim(s)
            == if Structural(after) then Some(k) else Else(Later(k + |STR_DELIM|, ClosingDelim(after)), Some(k))
  {
    hide Structural, Find;
  }

  /** `scan_quoted`. */
  method ReadQuoted(s: string) returns (r: Option<(string, string)>)
    ensures r == ScanQuoted(s)
  {
    if s == [] || !IsQuote(s[0]) { return None; }
    var quote := s[0];
    var body := s[1..];
    var out := "";
    var i := 0;
    assert body[0..] == body && "" + QuotedBody(body, quote).0 == QuotedBody(body, quote).0;
    while i < |body|
      invariant i <= |body|
      invariant ScanQuoted(s) == Some((out + QuotedBody(body[i..], quote).0, QuotedBody(body[i..], quote).1))
    {
      var c := body[i];
      TailSlice(body, i, 1, |body| - i);
      if c == '\\' {
        if i + 1 == |body| {
          return Some((out + "\\", ""));
        }
        TailSlice(body, i, 2, |body| - i);
        Regroup(out, Unescape(body[i + 1]), QuotedBody(body[i + 2..], quote).0);
        out := out + Unescape(body[i + 1]);
        i := i + 2;
      } else if c == quote {
        assert out + [] == out;
        return Some((out, body[i + 1..]));
      } else {
        Regroup(out, [c], QuotedBody(body[i + 1..], quote).0);
        out := out + [c];
        i := i + 1;
      }
    }
    assert out + [] == out;
    return Some((out, ""));
  }

  /** `parse_kv_args`. */
  method ParseKvArgs(inner: string) returns (m: Arguments)
    ensures m == ParseKv(inner, map[])
  {
    m := map[];
    var s := inner;
    while true
      invariant ParseKv(s, m) == ParseKv(inner, map[])
      decreases |s|
    {
      var t := TrimSeparators(s);
      if t == [] { break; }
      var keyed := ReadKey(t);
      if keyed.None? { break; }
      var (key, afterKey) := keyed.value;
      var after := AfterColon(afterKey);
      if after.None? || key == [] { break; }
      var value, rest := ReadValue(after.value);
      ParseStep(s, m, key, afterKey, value, rest);
      m := m[key := value];
      s := rest;
    }
  }

  lemma ParseStep(s: string, m: Arguments, key: string, afterKey: string, value: Value, rest: string)
    requires var t := TrimSeparators(s); t != [] && ScanKey(t) == Some((key, afterKey)) && key != []
    requires AfterColon(afterKey).Some? && ScanValue(AfterColon(afterKey).value) == (value, rest)
    ensures |rest| < |s| && ParseKv(s, m) == ParseKv(rest, m[key := value])
  {
    hide TrimSeparators, ScanKey, AfterColon, ScanValue;
  }

  method ReadKey(s: string) returns (r: Option<(string, string)>)
    ensures r == ScanKey(s)
  {
    hide ScanQuoted, Find, Trim;
    r := ReadQuoted(s);
    if r.Some? { return; }
    var colon := Find(s, ":");
    return if colon.Some? then Some((Trim(s[..colon.value]), s[colon.value..])) else None;
  }

  method ReadValue(s: string) returns (value: Value, rest: string)
    ensures (value, rest) == ScanValue(s)
  {
    hide ScanQuoted, ClosingDelim, Find, Trim, ParseScalar;
    if StartsWith(s, STR_DELIM) {
      var body := s[|STR_DELIM|..];
      var end := FindClosingDelim(body);
      if end.None? { return Str(body), ""; }
      return Str(body[..end.value]), body[end.value + |STR_DELIM|..];
    }
    var quoted := ReadQuoted(s);
    if quoted.Some? { return Str(quoted.value.0), quoted.value.1; }
    var comma := Find(s, ",");
    var end := if comma.Some? then comma.value else |s|;
    return ParseScalar(Trim(s[..end])), s[end..];
  }

  /** `parse_native_tool_calls`. */
  method ParseNativeToolCalls(text: string) returns (calls: seq<Call>)
    ensures calls == ParseCalls(text)
  {
    hide FindOpen, ScanBody, ParseKv, ParseCalls, NextCall;
    calls := [];
    var from := 0;
    assert text[0..] == text;
    var open := FindOpen(text);
    while open.Some?
      invariant from <= |text| && open == FindOpen(text[from..])
      invariant calls + ParseCalls(text[from..]) == ParseCalls(text)
      decreases |text| - from
    {
      var (name, whole) := open.value;
      var bodyStart := from + whole;
      NextAt(text, from, name, whole);
      CallsStep(text[from..]);
      var scanned := ScanCallBody(text, bodyStart);
      if scanned.None? {
        var arguments := ParseKvArgs(text[bodyStart..]);
        calls := calls + [Call(name, arguments)];
        return;
      }
      var (body, next) := scanned.value;
      var arguments := ParseKvArgs(body);
      assert calls + ([Call(name, arguments)] + ParseCalls(text[next..]))
          == (calls + [Call(name, arguments)]) + ParseCalls(text[next..]);
      calls := calls + [Call(name, arguments)];
      from := next;
      open := FindOpen(text[from..]);
    }
    NoMoreCalls(text[from..]);
    assert calls + [] == calls;
  }

  lemma NoMoreCalls(s: string)
    requires FindOpen(s).None?
    ensures ParseCalls(s) == []
  {}

  /** One round of that loop. */
  lemma CallsStep(s: string)
    ensures ParseCalls(s)
            == match NextCall(s)
               case None => []
               case Some((call, None)) => [call]
               case Some((call, Some(rest))) => [call] + ParseCalls(rest)
  {
    hide NextCall;
  }

  /** The next call, over the whole text. */
  lemma NextAt(text: string, from: nat, name: string, whole: nat)
    requires from <= |text| && FindOpen(text[from..]) == Some((name, whole))
    ensures from + whole <= |text| && 0 < whole
    ensures var start := from + whole;
            var n := ScanBody(text[start..], BODY_START);
            NextCall(text[from..])
            == if n.None? then Some((Call(name, ParseKv(text[start..], map[])), None))
               else Some((Call(name, ParseKv(text[start..start + n.value - 1], map[])), Some(text[start + n.value..])))
  {
    hide FindOpen, ScanBody, ParseKv;
    var s := text[from..];
    TailSlice(text, from, whole, |s|);
    var n := ScanBody(s[whole..], BODY_START);
    if n.Some? {
      TailSlice(text, from, whole, whole + n.value - 1);
      TailSlice(text, from, whole + n.value, |s|);
    }
  }
}
