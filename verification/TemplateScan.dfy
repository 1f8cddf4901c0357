/** The scanning loops of the source, each proved to find what `Template` says. */
module TemplateScan {
  import opened Common
  import opened Text
  import opened Template
  import opened TemplateProofs

  /** An absolute end, from one found `from` characters in. */
  function EndAt(src: string, from: nat, r: Option<nat>): nat { EndOr(Later(from, r), src) }

  /** `delimited_end`. */
  function DelimitedEnd(src: string, from: nat, closer: string): nat
    requires from <= |src|
  {
    match Find(src[from..], closer)
    case Some(k) => from + k + |closer|
    case None => |src|
  }

  /** `tag_end`. */
  method TagEnd(src: string, from: nat, closer: string) returns (end: nat)
    requires from <= |src| && |closer| == 2
    ensures end == EndAt(src, from, TagLen(src[from..], closer, None))
  {
    var i := from;
    var quote: Option<char> := None;
    while i < |src|
      invariant from <= i
      invariant EndAt(src, from, TagLen(src[from..], closer, None))
             == if i <= |src| then EndAt(src, i, TagLen(src[i..], closer, quote)) else |src|
    {
      var c := src[i];
      assert src[i..][1..] == src[i + 1..];
      match quote {
        case Some(q) =>
          if c == '\\' {
            if i + 2 <= |src| { assert src[i..][2..] == src[i + 2..]; }
            i := i + 2;
            continue;
          }
          if c == q { quote := None; }
        case None =>
          if c == '\'' || c == '"' {
            quote := Some(c);
          } else if StartsWith(src[i..], closer) {
            return i + 2;
          }
      }
      i := i + 1;
    }
    return |src|;
  }

  /** One round of the search for a block's end, as far as the text ahead goes. */
  lemma TagEndingStep(s: string, k: nat, ends: string -> bool)
    requires Find(s, "{%") == Some(k)
    ensures var n := TagLen(s[k + 2..], "%}", None);
            TagEndingLen(s, ends)
            == if n.None? then None
               else if ends(s[k + 2..k + 2 + n.value]) then Some(k + 2 + n.value)
               else Later(k + 2 + n.value, TagEndingLen(s[k + 2 + n.value..], ends))
  {
    hide Find, TagLen;
  }

  /** The same, counted from the start of the text. */
  lemma BlockStep(src: string, i: nat, k: nat, ends: string -> bool)
    requires i <= |src| && Find(src[i..], "{%") == Some(k)
    ensures var n := TagLen(src[i + k + 2..], "%}", None);
            var end := EndAt(src, i + k + 2, n);
            EndAt(src, i, TagEndingLen(src[i..], ends))
            == if n.None? || ends(src[i + k + 2..end]) then end
               else EndAt(src, end, TagEndingLen(src[end..], ends))
  {
    hide Find, TagLen, TagEndingLen;
    TagEndingStep(src[i..], k, ends);
    TailSlice(src, i, k + 2, |src| - i);
    var n := TagLen(src[i + k + 2..], "%}", None);
    if n.Some? {
      TailSlice(src, i, k + 2, k + 2 + n.value);
      TailSlice(src, i, k + 2 + n.value, |src| - i);
    }
  }

  lemma NoTagLeft(s: string, ends: string -> bool)
    requires Find(s, "{%").None?
    ensures TagEndingLen(s, ends).None?
  {}

  /** The end of the next tag that `ends` accepts, or the end of the text. */
  method BlockEnd(src: string, from: nat, ends: string -> bool) returns (end: nat)
    requires from <= |src|
    ensures end == EndAt(src, from, TagEndingLen(src[from..], ends))
  {
    hide Find, TagLen, TagEndingLen;
    var i := from;
    var rel := Find(src[i..], "{%");
    while rel.Some?
      invariant from <= i <= |src| && rel == Find(src[i..], "{%")
      invariant EndAt(src, from, TagEndingLen(src[from..], ends)) == EndAt(src, i, TagEndingLen(src[i..], ends))
      decreases |src| - i
    {
      var tag := i + rel.value;
      TailSlice(src, i, rel.value + 2, |src| - i);
      end := TagEnd(src, tag + 2, "%}");
      BlockStep(src, i, rel.value, ends);
      if TagLen(src[tag + 2..], "%}", None).None? || ends(src[tag + 2..end]) { return end; }
      i := end;
      rel := Find(src[i..], "{%");
    }
    NoTagLeft(src[i..], ends);
    return |src|;
  }

  /** `raw_block_end`. */
  method RawBlockEnd(src: string, from: nat) returns (end: nat)
    requires from <= |src|
    ensures end == EndAt(src, from, TagEndingLen(src[from..], EndsRaw))
  {
    end := BlockEnd(src, from, EndsRaw);
  }

  /** Text without a brace is copied through. */
  lemma {:induction false} StripText(s: string, n: nat)
    requires n <= |s| && forall i :: 0 <= i < n ==> s[i] != '{'
    ensures Strip(s) == s[..n] + Strip(s[n..])
  {
    hide Strip, First;
    if n > 0 {
      StripChar(s);
      StripText(s[1..], n - 1);
      assert s[1..][n - 1..] == s[n..];
      assert [s[0]] + (s[1..][..n - 1] + Strip(s[n..])) == s[..n] + Strip(s[n..]);
    } else {
      assert s[0..] == s;
    }
  }

  /** The next brace: nothing before it is one. */
  method FindBrace(src: string, from: nat) returns (at: Option<nat>)
    requires from <= |src|
    ensures at.Some? ==> from <= at.value < |src| && src[at.value] == '{'
    ensures forall i :: from <= i < (if at.Some? then at.value else |src|) ==> src[i] != '{'
  {
    var i := from;
    while i < |src|
      invariant from <= i <= |src| && forall k :: from <= k < i ==> src[k] != '{'
    {
      if src[i] == '{' { return Some(i); }
      i := i + 1;
    }
    return None;
  }

  /** One construct: what it is rewritten to, and where it ends. */
  method RewriteConstruct(src: string, start: nat) returns (written: string, end: nat)
    requires start < |src| && src[start] == '{'
    ensures var g := First(src[start..]);
            written == Rewrite(g).Text() && end == start + |g.Text()|
  {
    ghost var s := src[start..];
    if start + 1 < |src| {
      assert s[1] == src[start + 1] && s[2..] == src[start + 2..];
      match src[start + 1] {
        case '#' =>
          end := DelimitedEnd(src, start + 2, "#}");
          assert src[start..end] == s[..end - start];
          return src[start..end], end;
        case '{' =>
          end := TagEnd(src, start + 2, "}}");
          assert src[start..end] == s[..end - start];
          return src[start..end], end;
        case '%' =>
          written, end := RewriteStatement(src, start);
          return;
        case _ =>
      }
    }
    return "{", start + 1;
  }

  /** The same for a statement tag: a marker, a raw block, or anything else. */
  method RewriteStatement(src: string, start: nat) returns (written: string, end: nat)
    requires start + 1 < |src| && src[start] == '{' && src[start + 1] == '%'
    ensures var g := First(src[start..]);
            written == Rewrite(g).Text() && end == start + |g.Text()|
  {
    hide FirstStatement, TagLen;
    ghost var s := src[start..];
    TailSlice(src, start, 2, |s|);
    end := TagEnd(src, start + 2, "%}");
    assert First(s) == FirstStatement(s, end - start);
    TailSlice(src, start, 2, end - start);
    TailSlice(src, start, 0, end - start);
    TailSlice(src, start, end - start, |s|);
    written, end := RewriteTag(src, start, end);
  }

  /** What a statement tag is rewritten to, and how far it reaches, over the whole text. */
  lemma StatementAt(src: string, start: nat, tagEnd: nat)
    requires start + 2 <= tagEnd <= |src|
    ensures var inner := Inner(src[start + 2..tagEnd]);
            var g := FirstStatement(src[start..], tagEnd - start);
            var end := start + |g.Text()|;
            if IsMarkerName(Name(inner)) then Rewrite(g).Text() == EmptyComment(inner) && end == tagEnd
            else
              && end == (if Name(inner) == "raw" then EndAt(src, tagEnd, TagEndingLen(src[tagEnd..], EndsRaw)) else tagEnd)
              && end <= |src| && Rewrite(g).Text() == src[start..end]
  {
    hide Name, Inner, TagEndingLen, EmptyComment;
    var s := src[start..];
    TailSlice(src, start, 2, tagEnd - start);
    TailSlice(src, start, 0, tagEnd - start);
    TailSlice(src, start, tagEnd - start, |s|);
    var g := FirstStatement(s, tagEnd - start);
    if g.Marker? {
      assert s[..tagEnd - start][2..] == s[2..tagEnd - start];
    } else {
      TailSlice(src, start, 0, |g.Text()|);
      assert s[..|g.Text()|] == s[0..|g.Text()|];
    }
  }

  method RewriteTag(src: string, start: nat, tagEnd: nat) returns (written: string, end: nat)
    requires start + 2 <= tagEnd <= |src|
    ensures var g := FirstStatement(src[start..], tagEnd - start);
            written == Rewrite(g).Text() && end == start + |g.Text()|
  {
    hide Name, Inner, TagEndingLen, FirstStatement, Rewrite, EmptyComment, EndsRaw;
    StatementAt(src, start, tagEnd);
    var inner := Inner(src[start + 2..tagEnd]);
    var name := Name(inner);
    if IsMarkerName(name) { return EmptyComment(inner), tagEnd; }
    end := tagEnd;
    if name == "raw" {
      // Everything to the matching `endraw` is literal output.
      end := RawBlockEnd(src, tagEnd);
    }
    return src[start..end], end;
  }

  /** The construct at a brace, and the rest. */
  lemma StripHead(src: string, start: nat, written: string, end: nat)
    requires start < |src|
    requires written == Rewrite(First(src[start..])).Text() && end == start + |First(src[start..]).Text()|
    ensures end <= |src| && Strip(src[start..]) == written + Strip(src[end..])
  {
    hide Strip, First, Rewrite;
    StripUnfold(src[start..]);
    DropDrop(src, start, end - start);
  }

  /** Text up to a brace, and the rest. */
  lemma StripUpTo(src: string, i: nat, start: nat)
    requires i <= start <= |src| && forall k :: i <= k < start ==> src[k] != '{'
    ensures Strip(src[i..]) == src[i..start] + Strip(src[start..])
  {
    hide Strip;
    StripText(src[i..], start - i);
    DropDrop(src, i, start - i);
    assert src[i..][..start - i] == src[i..start];
  }

  /** One round of the walk: text up to a brace, then the construct there. */
  lemma StripRound(src: string, i: nat, start: nat, written: string, end: nat)
    requires i <= start < |src| && forall k :: i <= k < start ==> src[k] != '{'
    requires written == Rewrite(First(src[start..])).Text() && end == start + |First(src[start..]).Text()|
    ensures end <= |src| && Strip(src[i..]) == src[i..start] + written + Strip(src[end..])
  {
    hide Strip, First, Rewrite;
    StripUpTo(src, i, start);
    StripHead(src, start, written, end);
    Regroup(src[i..start], written, Strip(src[end..]));
  }

  /** `strip_generation_markers`. */
  method StripGenerationMarkers(src: string) returns (out: string)
    ensures out == Strip(src)
  {
    hide Strip, First, Rewrite;
    out := "";
    var i := 0;
    assert src[0..] == src;
    while i < |src|
      invariant i <= |src| && out + Strip(src[i..]) == Strip(src)
    {
      var at := FindBrace(src, i);
      if at.None? { break; }
      var start := at.value;
      var written, end := RewriteConstruct(src, start);
      StripRound(src, i, start, written, end);
      Regroup(out, src[i..start] + written, Strip(src[end..]));
      Regroup(out, src[i..start], written);
      out := out + src[i..start] + written;
      i := end;
    }
    TailIsText(src, i);
    out := out + src[i..];
  }

  lemma StripEmpty()
    ensures Strip("") == ""
  {}

  lemma TailIsText(src: string, i: nat)
    requires i <= |src| && forall k :: i <= k < |src| ==> src[k] != '{'
    ensures Strip(src[i..]) == src[i..]
  {
    hide Strip, First;
    StripUpTo(src, i, |src|);
    StripEmpty();
    assert src[|src|..] == "" && src[i..|src|] + "" == src[i..];
  }
}
