/** Stripping the markers changes a template's text and nothing of its structure. */
module TemplateProofs {
  import opened Common
  import opened Text
  import opened Template

  // ---- scans do not look past what they end at --------------------------------------

  lemma {:induction false} TagLocal(s: string, u: string, closer: string, quote: Option<char>, n: nat)
    requires |closer| == 2 && TagLen(s, closer, quote) == Some(n) && Agree(s, u, n)
    ensures TagLen(u, closer, quote) == Some(n)
  {
    AgreeSlice(s, u, n, 0, 2);
    assert s[0] == u[0];
    if quote.Some? && s[0] == '\\' {
      AgreeDrop(s, u, n, 2);
      TagLocal(s[2..], u[2..], closer, quote, n - 2);
    } else if quote.Some? {
      AgreeDrop(s, u, n, 1);
      TagLocal(s[1..], u[1..], closer, if s[0] == quote.value then None else quote, n - 1);
    } else if s[0] == '\'' || s[0] == '"' {
      AgreeDrop(s, u, n, 1);
      TagLocal(s[1..], u[1..], closer, Some(s[0]), n - 1);
    } else if !StartsWith(s, closer) {
      AgreeDrop(s, u, n, 1);
      TagLocal(s[1..], u[1..], closer, None, n - 1);
    }
  }

  lemma NextTagLocal(s: string, u: string, from: nat, end: nat)
    requires NextTag(s) == Some((from, end)) && Agree(s, u, end)
    ensures NextTag(u) == Some((from, end))
  {
    FindLocal(s, u, "{%", from - 2);
    AgreeDrop(s, u, end, from);
    TagLocal(s[from..], u[from..], "%}", None, end - from);
  }

  lemma {:induction false} TagEndingLocal(s: string, u: string, ends: string -> bool, n: nat)
    requires TagEndingLen(s, ends) == Some(n) && Agree(s, u, n)
    ensures TagEndingLen(u, ends) == Some(n)
    decreases |s|
  {
    var (from, end) := NextTag(s).value;
    NextTagLocal(s, u, from, end);
    AgreeSlice(s, u, n, from, end);
    if !ends(s[from..end]) {
      AgreeDrop(s, u, n, end);
      TagEndingLocal(s[end..], u[end..], ends, n - end);
    }
  }

  /** What may follow a segment without changing how it is read. */
  predicate Follows(rest: string, t: string) {
    if rest == [] then t == [] else t != [] && t[0] == rest[0]
  }

  /** A closed construct ends at the same place whatever follows it. */
  lemma ConstructLocal(s: string, u: string)
    requires |s| >= 2 && ConstructEnd(s) < |s| && Agree(s, u, ConstructEnd(s))
    ensures ConstructEnd(u) == ConstructEnd(s)
  {
    var end := ConstructEnd(s);
    AgreeDrop(s, u, end, 2);
    assert s[1] == u[1];
    if s[1] == '#' {
      FindLocal(s[2..], u[2..], "#}", end - 4);
    } else {
      TagLocal(s[2..], u[2..], if s[1] == '{' then "}}" else "%}", None, end - 2);
    }
  }

  /** The same for what a statement tag governs, raw blocks among them. */
  lemma StatementLocal(s: string, u: string, end: nat)
    requires 2 <= end <= |s| && |FirstStatement(s, end).Text()| < |s|
    requires Agree(s, u, |FirstStatement(s, end).Text()|)
    ensures end <= |FirstStatement(s, end).Text()|
    ensures FirstStatement(u, end) == FirstStatement(s, end)
  {
    var n := |FirstStatement(s, end).Text()|;
    AgreeSlice(s, u, n, 2, end);
    AgreeSlice(s, u, n, 0, end);
    AgreeSlice(s, u, n, 0, n);
    if FirstStatement(s, end).Raw? {
      AgreeDrop(s, u, n, end);
      TagEndingLocal(s[end..], u[end..], EndsRaw, n - end);
    }
  }

  /** A segment is read the same whatever follows it, down to one character. */
  lemma {:induction false} FirstLocal(s: string, u: string)
    requires s != [] && Agree(s, u, |First(s).Text()|)
    requires Follows(s[|First(s).Text()|..], u[|First(s).Text()|..])
    ensures First(u) == First(s)
  {
    var g := First(s);
    var n := |g.Text()|;
    assert s[0] == u[0];
    AgreeSlice(s, u, n, 0, n);
    if n == |s| {
      assert s == s[0..n] && u == u[0..n];
    } else if g.Char? {
      assert s[1] == s[n..][0] && u[1] == u[n..][0];
    } else {
      assert s[1] == u[1];
      if s[1] == '%' { StatementLocal(s, u, ConstructEnd(s)); }
      ConstructLocal(s, u);
    }
  }

  /** An empty comment is read as one, whatever follows it. */
  lemma EmptyCommentIsRead(inner: string, t: string)
    ensures First(EmptyComment(inner) + t) == Comment(EmptyComment(inner))
  {
    var c := EmptyComment(inner);
    var u := c + t;
    EmptyCommentCloses(c[2..]);
    assert Agree(c[2..], u[2..], |c| - 2);
    FindLocal(c[2..], u[2..], "#}", |c| - 4);
    assert u[..|c|] == c;
  }

  /** At most two dashes and a closer: the closer is found at the end. */
  lemma {:induction false} EmptyCommentCloses(d: string)
    requires 2 <= |d| <= 4 && d[|d| - 2] == '#' && d[|d| - 1] == '}'
    requires forall i :: 0 <= i < |d| - 2 ==> d[i] == '-'
    ensures Find(d, "#}") == Some(|d| - 2)
  {
    if |d| > 2 {
      assert d[..2][0] == '-';
      EmptyCommentCloses(d[1..]);
    } else {
      assert d[..2] == "#}";
    }
  }

  // ---- the theorem ------------------------------------------------------------------

  /** Stripping keeps a template's first character, if it has one. */
  lemma StripFollows(s: string)
    ensures Follows(s, Strip(s))
  {
    if s != [] {
      var g := First(s);
      assert Rewrite(g).Text()[0] == g.Text()[0];
    }
  }

  /**
   * The lexer sees in the output exactly what it saw in the input, each marker replaced
   * by an empty comment: no text becomes a tag, no tag becomes text, and nothing that is
   * quoted, raw, commented or unterminated is touched.
   */
  lemma {:induction false} StripPreservesStructure(s: string)
    ensures Segments(Strip(s)) == RewriteAll(Segments(s))
  {
    if s != [] {
      var head := Rewrite(First(s));
      var rest := s[|First(s).Text()|..];
      StripUnfold(s);
      StripPreservesStructure(rest);
      FirstOfStripped(s, Strip(rest));
      assert Strip(s)[|head.Text()|..] == Strip(rest);
    }
  }

  /** Stripping is segment by segment. */
  lemma StripUnfold(s: string)
    requires s != []
    ensures var head, rest := Rewrite(First(s)), s[|First(s).Text()|..];
            && RewriteAll(Segments(s)) == [head] + RewriteAll(Segments(rest))
            && Strip(s) == head.Text() + Strip(rest)
  {
    var g, rest := First(s), s[|First(s).Text()|..];
    assert Segments(s)[0] == g && Segments(s)[1..] == Segments(rest);
    assert RewriteAll(Segments(s))[1..] == RewriteAll(Segments(rest));
  }

  /** Text that is not a brace is a segment of its own. */
  lemma StripChar(s: string)
    requires s != [] && s[0] != '{'
    ensures Strip(s) == [s[0]] + Strip(s[1..])
  {
    assert First(s) == Char(s[0]);
    StripUnfold(s);
  }

  /** The rewritten first segment is read back from in front of a stripped rest. */
  lemma FirstOfStripped(s: string, t: string)
    requires s != [] && t == Strip(s[|First(s).Text()|..])
    ensures First(Rewrite(First(s)).Text() + t) == Rewrite(First(s))
  {
    var g := First(s);
    if g.Marker? {
      EmptyCommentIsRead(Inner(g.marker[2..]), t);
    } else {
      var u := g.Text() + t;
      StripFollows(s[|g.Text()|..]);
      assert u[|g.Text()|..] == t;
      assert Agree(s, u, |g.Text()|);
      FirstLocal(s, u);
    }
  }

  lemma {:induction false} RewriteTwice(gs: seq<Segment>)
    ensures RewriteAll(RewriteAll(gs)) == RewriteAll(gs)
    ensures forall g :: g in RewriteAll(gs) ==> !g.Marker?
  {
    if gs != [] { RewriteTwice(gs[1..]); }
  }

  /** Stripping twice is stripping once, and leaves no marker to execute. */
  lemma {:induction false} StripIsIdempotent(s: string)
    ensures Strip(Strip(s)) == Strip(s)
    ensures forall g :: g in Segments(Strip(s)) ==> !g.Marker?
  {
    StripPreservesStructure(s);
    RewriteTwice(Segments(s));
  }

  /** The segments of a template are the template. */
  lemma {:induction false} SegmentsCover(s: string)
    ensures Flatten(Segments(s)) == s
  {
    if s != [] {
      var g := First(s);
      SegmentsCover(s[|g.Text()|..]);
      assert ([g] + Segments(s[|g.Text()|..]))[1..] == Segments(s[|g.Text()|..]);
    }
  }

  lemma {:induction false} NothingToRewrite(gs: seq<Segment>)
    ensures (forall g :: g in gs ==> !g.Marker?) ==> RewriteAll(gs) == gs
  {
    if gs != [] { NothingToRewrite(gs[1..]); }
  }

  /** A template is left alone, to the character, exactly when no marker of it executes. */
  lemma {:induction false} StripLeavesAlone(s: string)
    ensures Strip(s) == s <==> (forall g :: g in Segments(s) ==> !g.Marker?)
  {
    SegmentsCover(s);
    NothingToRewrite(Segments(s));
    if Strip(s) == s { StripIsIdempotent(s); }
  }

  // ---- what counts as a marker ------------------------------------------------------

  lemma {:induction false} TrimsKeep(s: string, c: char)
    requires c in s && c != '-' && !IsWs(c)
    ensures c in TrimDashStart(s) && c in TrimDashEnd(s) && c in TrimStart(s) && c in TrimEnd(s)
  {
    var front, back := s[1..], s[..|s| - 1];
    assert s == [s[0]] + front && s == back + [s[|s| - 1]];
    if s[0] == '-' || IsWs(s[0]) { TrimsKeep(front, c); }
    if s[|s| - 1] == '-' || IsWs(s[|s| - 1]) { TrimsKeep(back, c); }
  }

  /** A name has every quote its tag has. */
  lemma NameKeeps(inner: string, c: char)
    requires c in inner && c != '-' && !IsWs(c)
    ensures c in Name(inner)
  {
    TrimsKeep(inner, c);
    TrimsKeep(TrimDashStart(inner), c);
    TrimsKeep(TrimDashEnd(TrimDashStart(inner)), c);
    TrimsKeep(TrimStart(TrimDashEnd(TrimDashStart(inner))), c);
  }

  /** A tag without quotes ends at its closer. */
  lemma {:induction false} UnquotedCloses(inner: string)
    requires '"' !in inner && '\'' !in inner
    ensures TagLen(inner + "%}", "%}", None).Some?
  {
    var s := inner + "%}";
    if inner != [] {
      assert s[1..] == inner[1..] + "%}";
      UnquotedCloses(inner[1..]);
    } else {
      assert s[..2] == "%}";
    }
  }

  /** A tag that never ends names no statement that is acted on. */
  lemma UnterminatedHasQuotes(tag: string)
    requires TagLen(tag, "%}", None) == None
    ensures var name := Name(Inner(tag)); !IsMarkerName(name) && name != "raw"
  {
    hide Name, TagLen;
    var inner := Inner(tag);
    if '"' in inner {
      NameKeeps(inner, '"');
    } else if '\'' in inner {
      NameKeeps(inner, '\'');
    } else if inner != [] {
      assert tag == inner + "%}";
      UnquotedCloses(inner);
    } else {
      NameOfNothing();
    }
  }

  lemma NameOfNothing()
    ensures Name([]) == []
  {}

  /** A statement tag that never ends is copied as the text it is, whatever it spells. */
  lemma UnterminatedIsCopied(s: string)
    requires |s| >= 2 && s[0] == '{' && s[1] == '%' && TagLen(s[2..], "%}", None) == None
    ensures First(s) == Statement(s) && Strip(s) == s
  {
    assert First(s) == Statement(s) by {
      hide Name, TagLen, Inner;
      UnterminatedHasQuotes(s[2..]);
      assert s[2..|s|] == s[2..] && s[..|s|] == s;
    }
    hide First;
    StripUnfold(s);
    assert s[|s|..] == [];
  }

  // ---- whitespace control -----------------------------------------------------------

  /** Which sides of itself a tag or comment strips. */
  datatype Control = Control(left: bool, right: bool)

  function MarkerControl(tag: string): Control {
    var inner := Inner(tag[Min(2, |tag|)..]);
    Control(inner != [] && inner[0] == '-', inner != [] && inner[|inner| - 1] == '-')
  }

  /**
   * Which markers keep their whitespace control, however comments are read, as long as one
   * without dashes strips nothing and one with both strips both sides: those that strip on
   * neither or both, and of the others those that strip as the comment with one dash does.
   */
  lemma ControlIsKept(tag: string, reading: string -> Control)
    requires reading("{##}") == Control(false, false) && reading("{#--#}") == Control(true, true)
    ensures reading(Rewrite(Marker(tag)).Text()) == MarkerControl(tag)
            <==> MarkerControl(tag).left == MarkerControl(tag).right || reading("{#-#}") == MarkerControl(tag)
  {
    var inner := Inner(tag[Min(2, |tag|)..]);
    var c := MarkerControl(tag);
    assert Rewrite(Marker(tag)).Text() == EmptyComment(inner);
    assert EmptyComment(inner)
           == if c.left && c.right then "{#--#}" else if c.left || c.right then "{#-#}" else "{##}";
  }

  lemma LeftMarker()
    ensures Name("- generation ") == "generation"
  {
    var a := "- generation ";
    assert a[1..] == " generation " && TrimDashStart(a) == " generation ";
    assert TrimDashEnd(" generation ") == " generation ";
    assert " generation "[1..] == "generation " && TrimStart(" generation ") == "generation ";
    assert "generation "[..10] == "generation" && TrimEnd("generation ") == "generation";
  }

  lemma RightMarker()
    ensures Name(" generation -") == "generation"
  {
    var a := " generation -";
    assert TrimDashStart(a) == a;
    assert a[..12] == " generation " && TrimDashEnd(a) == " generation ";
    assert " generation "[1..] == "generation " && TrimStart(" generation ") == "generation ";
    assert "generation "[..10] == "generation" && TrimEnd("generation ") == "generation";
  }

  lemma {:induction false} PlainTagLen(inner: string)
    requires '"' !in inner && '\'' !in inner && '%' !in inner
    ensures TagLen(inner + "%}", "%}", None) == Some(|inner| + 2)
  {
    var s := inner + "%}";
    if inner != [] {
      assert s[1..] == inner[1..] + "%}" && s[..2][0] == inner[0];
      PlainTagLen(inner[1..]);
    } else {
      assert s[..2] == "%}";
    }
  }

  /** A tag that is a whole template. */
  lemma TagAlone(inner: string)
    requires '"' !in inner && '\'' !in inner && '%' !in inner
    ensures var s := "{%" + inner + "%}";
            s[2..] == inner + "%}" && Inner(s[2..]) == inner && ConstructEnd(s) == |s|
  {
    var s := "{%" + inner + "%}";
    assert s[2..] == inner + "%}" && (inner + "%}")[|inner|..] == "%}" && (inner + "%}")[..|inner|] == inner;
    PlainTagLen(inner);
    hide TagLen;
  }

  /** A tag that names a marker, as a whole template. */
  lemma PlainTag(inner: string)
    requires '"' !in inner && '\'' !in inner && '%' !in inner && IsMarkerName(Name(inner))
    ensures First("{%" + inner + "%}") == Marker("{%" + inner + "%}")
    ensures Inner(("{%" + inner + "%}")[2..]) == inner
    ensures Rewrite(Marker("{%" + inner + "%}")).Text() == EmptyComment(inner)
    ensures MarkerControl("{%" + inner + "%}")
            == Control(inner != [] && inner[0] == '-', inner != [] && inner[|inner| - 1] == '-')
  {
    hide Name, Inner, ConstructEnd, EmptyComment;
    var s := "{%" + inner + "%}";
    TagAlone(inner);
    assert s[2..|s|] == s[2..] && s[..|s|] == s;
  }

  const LEFT_ONLY := "{%" + "- generation " + "%}"
  const RIGHT_ONLY := "{%" + " generation -" + "%}"

  /** The two one-sided spellings of a marker become the same comment. */
  lemma OneSidedMarkers()
    ensures First(LEFT_ONLY) == Marker(LEFT_ONLY) && MarkerControl(LEFT_ONLY) == Control(true, false)
    ensures First(RIGHT_ONLY) == Marker(RIGHT_ONLY) && MarkerControl(RIGHT_ONLY) == Control(false, true)
    ensures Rewrite(Marker(LEFT_ONLY)) == Rewrite(Marker(RIGHT_ONLY)) == Comment("{#-#}")
  {
    hide Name, TagLen, First, Inner, MarkerControl;
    LeftMarker();
    RightMarker();
    PlainTag("- generation ");
    PlainTag(" generation -");
    assert EmptyComment("- generation ") == "{#-#}" && EmptyComment(" generation -") == "{#-#}";
  }

  /**
   * No reading of comments could keep it for every marker: two markers that differ in
   * their control become the same comment.
   */
  lemma OneSidedMarkersCollide(reading: string -> Control)
    ensures exists s :: s != [] && First(s).Marker?
                        && reading(Rewrite(First(s)).Text()) != MarkerControl(First(s).marker)
  {
    hide First, Rewrite, MarkerControl;
    OneSidedMarkers();
    var s := if reading("{#-#}") == Control(true, false) then RIGHT_ONLY else LEFT_ONLY;
    assert s != [] && First(s).Marker?;
    assert reading(Rewrite(First(s)).Text()) != MarkerControl(First(s).marker);
  }
}
