/**
 * `tag_end` over the bytes it really walks. Outside quotes it slices its source at every
 * byte, and a slice that starts inside a character panics.
 */
module TemplateBytes {
  import opened Common
  import opened Text
  import opened Template

  type Byte = n: int | 0 <= n < 0x100

  /** Where a tag ends, that it never does, or that the scan panics. */
  datatype Found = Ends(at: nat) | Open | Panics

  function Ahead(n: nat, f: Found): Found { if f.Ends? then Ends(n + f.at) else f }

  // ---- characters as bytes ----------------------------------------------------------

  predicate IsContinuation(b: Byte) { 0x80 <= b < 0xC0 }

  predicate IsAscii(c: char) { c as int < 0x80 }

  /** UTF-8: an ASCII character is itself, any other a leading byte and continuations. */
  function Utf8(c: char): (bs: seq<Byte>)
    ensures bs != []
    ensures IsAscii(c) ==> bs == [c as int]
    ensures !IsAscii(c) ==> |bs| >= 2 && bs[0] >= 0xC0 && forall i :: 0 < i < |bs| ==> IsContinuation(bs[i])
  {
    var n := c as int;
    if n < 0x80 then [n]
    else if n < 0x800 then [0xC0 + n / 0x40, 0x80 + n % 0x40]
    else if n < 0x1_0000 then [0xE0 + n / 0x1000, 0x80 + n / 0x40 % 0x40, 0x80 + n % 0x40]
    else [0xF0 + n / 0x4_0000, 0x80 + n / 0x1000 % 0x40, 0x80 + n / 0x40 % 0x40, 0x80 + n % 0x40]
  }

  function Encode(s: string): seq<Byte> { if s == [] then [] else Utf8(s[0]) + Encode(s[1..]) }

  // ---- the scan ---------------------------------------------------------------------

  const BACKSLASH: Byte := 92

  predicate IsQuoteByte(b: Byte) { b == 39 || b == 34 }

  /** The scan of the bytes ahead. */
  function ByteTag(b: seq<Byte>, closer: (Byte, Byte), quote: Option<Byte>): Found {
    if b == [] then Open
    else if quote.Some? then
      if b[0] == BACKSLASH then if |b| < 2 then Open else Ahead(2, ByteTag(b[2..], closer, quote))
      else Ahead(1, ByteTag(b[1..], closer, if b[0] == quote.value then None else quote))
    else if IsQuoteByte(b[0]) then Ahead(1, ByteTag(b[1..], closer, Some(b[0])))
    else if IsContinuation(b[0]) then Panics
    else if |b| > 1 && b[0] == closer.0 && b[1] == closer.1 then Ends(2)
    else Ahead(1, ByteTag(b[1..], closer, None))
  }

  /** `tag_end` itself, on a source that is given as its bytes. */
  method TagEndOfBytes(src: seq<Byte>, from: nat, closer: (Byte, Byte)) returns (r: Found)
    requires from <= |src|
    ensures r == Ahead(from, ByteTag(src[from..], closer, None))
  {
    var i := from;
    var quote: Option<Byte> := None;
    while i < |src|
      invariant from <= i
      invariant Ahead(from, ByteTag(src[from..], closer, None))
             == if i <= |src| then Ahead(i, ByteTag(src[i..], closer, quote)) else Open
    {
      var c := src[i];
      assert src[i..][1..] == src[i + 1..];
      match quote {
        case Some(q) =>
          if c == BACKSLASH {
            if i + 2 <= |src| { assert src[i..][2..] == src[i + 2..]; }
            i := i + 2;
            continue;
          }
          if c == q { quote := None; }
        case None =>
          if IsQuoteByte(c) {
            quote := Some(c);
          } else if IsContinuation(c) {
            return Panics;
          } else if i + 1 < |src| && c == closer.0 && src[i + 1] == closer.1 {
            return Ends(i + 2);
          }
      }
      i := i + 1;
    }
    return Open;
  }

  // ---- agreement with the scan of characters ----------------------------------------

  /** Whether a tag shows a character that is not ASCII, outside its strings, before it ends. */
  predicate ShowsNonAscii(s: string, closer: string, quote: Option<char>) {
    if s == [] then false
    else if quote.Some? then
      if s[0] == '\\' then |s| >= 2 && ShowsNonAscii(s[2..], closer, quote)
      else ShowsNonAscii(s[1..], closer, if s[0] == quote.value then None else quote)
    else if s[0] == '\'' || s[0] == '"' then ShowsNonAscii(s[1..], closer, Some(s[0]))
    else if StartsWith(s, closer) then false
    else !IsAscii(s[0]) || ShowsNonAscii(s[1..], closer, None)
  }

  function AsByte(c: char): Byte
    requires IsAscii(c)
  {
    c as int
  }

  function QuoteByte(quote: Option<char>): Option<Byte>
    requires quote.Some? ==> IsAscii(quote.value)
  {
    if quote.Some? then Some(AsByte(quote.value)) else None
  }

  /** What the scan of characters finds, in bytes. */
  function Expected(s: string, closer: string, quote: Option<char>): Found
    requires |closer| == 2
  {
    if ShowsNonAscii(s, closer, quote) then Panics
    else
      match TagLen(s, closer, quote)
      case None => Open
      case Some(n) => Ends(|Encode(s[..n])|)
  }

  lemma EncodeOne(s: string, n: nat)
    requires 0 < n <= |s|
    ensures Encode(s[..n]) == Utf8(s[0]) + Encode(s[1..][..n - 1])
  {
    assert s[..n][1..] == s[1..][..n - 1];
  }

  /** One character on, the same end is that many bytes further. */
  lemma ExpectedStep(s: string, closer: string, quote: Option<char>, next: Option<char>)
    requires |closer| == 2 && s != []
    requires ShowsNonAscii(s, closer, quote) == ShowsNonAscii(s[1..], closer, next)
    requires TagLen(s, closer, quote) == Later(1, TagLen(s[1..], closer, next))
    ensures Expected(s, closer, quote) == Ahead(|Utf8(s[0])|, Expected(s[1..], closer, next))
  {
    hide Utf8, TagLen, ShowsNonAscii;
    if TagLen(s[1..], closer, next).Some? { EncodeOne(s, TagLen(s, closer, quote).value); }
  }

  /** Inside a string the rest of a character is passed over. */
  lemma {:induction false} ContinuationsPass(ks: seq<Byte>, rest: seq<Byte>, closer: (Byte, Byte), q: Byte)
    requires (forall i :: 0 <= i < |ks| ==> IsContinuation(ks[i])) && q < 0x80
    ensures ByteTag(ks + rest, closer, Some(q)) == Ahead(|ks|, ByteTag(rest, closer, Some(q)))
  {
    if ks == [] {
      assert ks + rest == rest;
    } else {
      assert (ks + rest)[1..] == ks[1..] + rest;
      ContinuationsPass(ks[1..], rest, closer, q);
    }
  }

  /** A character inside a string, that neither ends it nor escapes. */
  lemma QuotedPasses(c: char, rest: seq<Byte>, closer: (Byte, Byte), q: char)
    requires IsAscii(q) && c != '\\' && c != q
    ensures ByteTag(Utf8(c) + rest, closer, Some(AsByte(q))) == Ahead(|Utf8(c)|, ByteTag(rest, closer, Some(AsByte(q))))
  {
    var bs := Utf8(c);
    assert (bs + rest)[1..] == bs[1..] + rest;
    if IsAscii(c) {
      assert bs[1..] + rest == rest;
    } else {
      ContinuationsPass(bs[1..], rest, closer, AsByte(q));
    }
  }

  /** An escaped one, whatever it is: the scan skips its first byte and passes the others. */
  lemma EscapePasses(c: char, rest: seq<Byte>, closer: (Byte, Byte), q: char)
    requires IsAscii(q)
    ensures ByteTag([BACKSLASH] + (Utf8(c) + rest), closer, Some(AsByte(q)))
            == Ahead(1 + |Utf8(c)|, ByteTag(rest, closer, Some(AsByte(q))))
  {
    var bs := Utf8(c);
    var b := [BACKSLASH] + (bs + rest);
    assert b[2..] == bs[1..] + rest;
    ContinuationsPass(bs[1..], rest, closer, AsByte(q));
  }

  /** Outside strings the second byte of a character is one slice too many. */
  lemma NonAsciiPanics(c: char, rest: seq<Byte>, closer: (Byte, Byte))
    requires !IsAscii(c) && closer.0 < 0x80
    ensures ByteTag(Utf8(c) + rest, closer, None) == Panics
  {
    var b := Utf8(c) + rest;
    assert b[0] == Utf8(c)[0] && b[1..][0] == Utf8(c)[1];
    assert ByteTag(b[1..], closer, None) == Panics;
  }

  /** Two ASCII characters are found in the bytes where they are in the text. */
  lemma CloserInBytes(s: string, closer: string)
    requires |closer| == 2 && IsAscii(closer[0]) && IsAscii(closer[1]) && s != []
    ensures var b := Encode(s);
            StartsWith(s, closer) <==> |b| > 1 && b[0] == AsByte(closer[0]) && b[1] == AsByte(closer[1])
  {
    var b := Encode(s);
    assert b[0] == Utf8(s[0])[0];
    if |s| > 1 {
      assert Encode(s[1..])[0] == Utf8(s[1])[0];
      assert IsAscii(s[0]) ==> b[1] == Encode(s[1..])[0];
    }
    assert StartsWith(s, closer) <==> |s| > 1 && s[0] == closer[0] && s[1] == closer[1];
  }

  /**
   * When `tag_end` panics, and that it is otherwise the scan of characters: exactly when
   * the tag shows a character that is not ASCII outside its strings.
   */
  lemma {:induction false} TagEndOfEncoding(s: string, closer: string, quote: Option<char>)
    requires |closer| == 2 && IsAscii(closer[0]) && IsAscii(closer[1])
    requires quote.Some? ==> quote.value == '\'' || quote.value == '"'
    ensures ByteTag(Encode(s), (AsByte(closer[0]), AsByte(closer[1])), QuoteByte(quote)) == Expected(s, closer, quote)
    decreases |s|
  {
    hide Utf8;
    var to := (AsByte(closer[0]), AsByte(closer[1]));
    if s != [] {
      var rest := Encode(s[1..]);
      if quote.Some? {
        QuotedStep(s, closer, quote.value);
      } else if s[0] == '\'' || s[0] == '"' {
        TagEndOfEncoding(s[1..], closer, Some(s[0]));
        ExpectedStep(s, closer, None, Some(s[0]));
        assert ([AsByte(s[0])] + rest)[1..] == rest;
      } else {
        PlainStep(s, closer);
      }
    }
  }

  lemma QuotedStep(s: string, closer: string, q: char)
    requires |closer| == 2 && IsAscii(closer[0]) && IsAscii(closer[1])
    requires s != [] && (q == '\'' || q == '"')
    ensures ByteTag(Encode(s), (AsByte(closer[0]), AsByte(closer[1])), Some(AsByte(q))) == Expected(s, closer, Some(q))
    decreases |s|, 0
  {
    hide Utf8;
    var to := (AsByte(closer[0]), AsByte(closer[1]));
    var rest := Encode(s[1..]);
    if s[0] == '\\' {
      if |s| == 1 {
        assert Encode(s) == [BACKSLASH];
      } else {
        EscapePasses(s[1], Encode(s[2..]), to, q);
        assert s[1..][1..] == s[2..];
        assert Encode(s) == [BACKSLASH] + (Utf8(s[1]) + Encode(s[2..]));
        TagEndOfEncoding(s[2..], closer, Some(q));
        ExpectedEscape(s, closer, q);
      }
    } else if s[0] == q {
      TagEndOfEncoding(s[1..], closer, None);
      ExpectedStep(s, closer, Some(q), None);
      assert ([AsByte(q)] + rest)[1..] == rest;
    } else {
      QuotedPasses(s[0], rest, to, q);
      TagEndOfEncoding(s[1..], closer, Some(q));
      ExpectedStep(s, closer, Some(q), Some(q));
    }
  }

  lemma ExpectedEscape(s: string, closer: string, q: char)
    requires |closer| == 2 && |s| >= 2 && s[0] == '\\'
    ensures Expected(s, closer, Some(q)) == Ahead(1 + |Utf8(s[1])|, Expected(s[2..], closer, Some(q)))
  {
    hide Utf8;
    var n := TagLen(s[2..], closer, Some(q));
    if n.Some? {
      EncodeOne(s, 2 + n.value);
      EncodeOne(s[1..], 1 + n.value);
      assert s[1..][1..] == s[2..];
    }
  }

  lemma PlainStep(s: string, closer: string)
    requires |closer| == 2 && IsAscii(closer[0]) && IsAscii(closer[1])
    requires s != [] && s[0] != '\'' && s[0] != '"'
    ensures ByteTag(Encode(s), (AsByte(closer[0]), AsByte(closer[1])), None) == Expected(s, closer, None)
    decreases |s|, 0
  {
    hide Utf8;
    var to := (AsByte(closer[0]), AsByte(closer[1]));
    var rest := Encode(s[1..]);
    CloserInBytes(s, closer);
    if StartsWith(s, closer) {
      assert s[0] == s[..2][0] && s[1] == s[..2][1];
      EncodeOne(s, 2);
      EncodeOne(s[1..], 1);
      assert s[1..][1..][..0] == [];
    } else if IsAscii(s[0]) {
      TagEndOfEncoding(s[1..], closer, None);
      ExpectedStep(s, closer, None, None);
      assert ([AsByte(s[0])] + rest)[1..] == rest;
    } else {
      NonAsciiPanics(s[0], rest, to);
    }
  }
}
