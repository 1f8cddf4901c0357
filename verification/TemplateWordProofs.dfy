/** What stripping does to the constructs a template is made of, spelled out. */
module TemplateWordProofs {
  import opened Common
  import opened Text
  import opened Template
  import opened TemplateProofs

  /** A tag's inside as short as a marker's: no string in it and no closer. */
  predicate Plain(inner: string) { '"' !in inner && '\'' !in inner && '%' !in inner }

  // ---- one tag and what follows it --------------------------------------------------

  /** A plain tag ends at its closer, whatever follows. */
  lemma PlainTagBefore(inner: string, t: string)
    requires Plain(inner)
    ensures TagLen(inner + "%}" + t, "%}", None) == Some(|inner| + 2)
  {
    hide TagLen;
    PlainTagLen(inner);
    assert Agree(inner + "%}", inner + "%}" + t, |inner| + 2);
    TagLocal(inner + "%}", inner + "%}" + t, "%}", None, |inner| + 2);
  }

  /** A template that starts with a plain tag, cut there. */
  lemma PlainCut(inner: string, t: string)
    ensures var s := "{%" + inner + "%}" + t;
            var end := |inner| + 4;
            && s[0] == '{' && s[1] == '%' && s[2..] == inner + "%}" + t
            && s[..end] == "{%" + inner + "%}" && s[2..end] == inner + "%}" && s[end..] == t
            && Inner(inner + "%}") == inner
  {
    var s := "{%" + inner + "%}" + t;
    assert s == "{%" + (inner + "%}" + t) && s == ("{%" + inner + "%}") + t;
    CutJoin(inner, "%}");
  }

  /** The first segment of a template that starts with a plain tag is what that tag governs. */
  lemma PlainStarts(inner: string, t: string)
    requires Plain(inner)
    ensures var s := "{%" + inner + "%}" + t;
            First(s) == FirstStatement(s, |inner| + 4)
  {
    hide TagLen, FirstStatement;
    PlainCut(inner, t);
    PlainTagBefore(inner, t);
  }

  /** Stripping goes on behind a first segment. */
  lemma StripBehind(g: Segment, t: string)
    requires g.Text() != [] && First(g.Text() + t) == g
    ensures Strip(g.Text() + t) == Rewrite(g).Text() + Strip(t)
  {
    hide First, Rewrite;
    CutJoin(g.Text(), t);
    StripUnfold(g.Text() + t);
  }

  // ---- markers ----------------------------------------------------------------------

  /** A plain marker becomes an empty comment, and the rest is stripped as if it stood alone. */
  lemma MarkerIsStripped(inner: string, t: string)
    requires Plain(inner) && IsMarkerName(Name(inner))
    ensures Strip("{%" + inner + "%}" + t) == EmptyComment(inner) + Strip(t)
  {
    hide Name, Inner, First, EmptyComment, Strip;
    var tag := "{%" + inner + "%}";
    PlainStarts(inner, t);
    PlainCut(inner, t);
    StripBehind(Marker(tag), t);
    PlainCut(inner, "");
    assert tag + "" == tag && inner + "%}" + "" == inner + "%}";
  }

  predicate Dashes(s: string) { forall i :: 0 <= i < |s| ==> s[i] == '-' }

  /** A statement's name as a tag holds it: control dashes, spaces, the name, spaces, dashes. */
  function Spelled(left: string, lead: string, name: string, tail: string, right: string): string {
    left + (lead + (name + (tail + right)))
  }

  lemma {:induction false} DashesGo(left: string, t: string)
    requires Dashes(left) && (t == [] || t[0] != '-')
    ensures TrimDashStart(left + t) == t
  {
    if left == [] {
      assert left + t == t;
    } else {
      assert (left + t)[1..] == left[1..] + t;
      DashesGo(left[1..], t);
    }
  }

  lemma {:induction false} DashesGoBehind(t: string, right: string)
    requires Dashes(right) && (t == [] || t[|t| - 1] != '-')
    ensures TrimDashEnd(t + right) == t
  {
    if right == [] {
      assert t + right == t;
    } else {
      assert (t + right)[..|t + right| - 1] == t + right[..|right| - 1];
      DashesGoBehind(t, right[..|right| - 1]);
    }
  }

  lemma {:induction false} SpacesGo(lead: string, t: string)
    requires AllWs(lead) && (t == [] || !IsWs(t[0]))
    ensures TrimStart(lead + t) == t
  {
    if lead == [] {
      assert lead + t == t;
    } else {
      assert (lead + t)[1..] == lead[1..] + t;
      SpacesGo(lead[1..], t);
    }
  }

  lemma {:induction false} SpacesGoBehind(t: string, tail: string)
    requires AllWs(tail) && (t == [] || !IsWs(t[|t| - 1]))
    ensures TrimEnd(t + tail) == t
  {
    if tail == [] {
      assert t + tail == t;
    } else {
      assert (t + tail)[..|t + tail| - 1] == t + tail[..|tail| - 1];
      SpacesGoBehind(t, tail[..|tail| - 1]);
    }
  }

  /** A name neither starts nor ends with what is trimmed. */
  predicate IsName(name: string) {
    && name != [] && name[0] != '-' && name[|name| - 1] != '-' && !IsWs(name[0]) && !IsWs(name[|name| - 1])
  }

  lemma SpelledNames(left: string, lead: string, name: string, tail: string, right: string)
    requires Dashes(left) && AllWs(lead) && IsName(name) && AllWs(tail) && Dashes(right)
    ensures Name(Spelled(left, lead, name, tail, right)) == name
  {
    hide TrimDashStart, TrimDashEnd, TrimStart, TrimEnd;
    assert !IsWs('-');
    var middle := lead + (name + tail);
    assert lead + (name + (tail + right)) == middle + right;
    DashesGo(left, middle + right);
    DashesGoBehind(middle, right);
    SpacesGo(lead, name + tail);
    SpacesGoBehind(name, tail);
  }

  lemma {:induction false} SpelledIsPlain(left: string, lead: string, name: string, tail: string, right: string)
    requires Dashes(left) && AllWs(lead) && Plain(name) && AllWs(tail) && Dashes(right)
    ensures Plain(Spelled(left, lead, name, tail, right))
  {
    assert !IsWs('"') && !IsWs('\'') && !IsWs('%');
  }

  lemma SpelledEnds(left: string, lead: string, name: string, tail: string, right: string)
    requires Dashes(left) && AllWs(lead) && IsName(name) && AllWs(tail) && Dashes(right)
    ensures var s := Spelled(left, lead, name, tail, right);
            s != [] && (s[0] == '-' <==> left != []) && (s[|s| - 1] == '-' <==> right != [])
  {
    assert !IsWs('-');
  }

  /**
   * The opening and the closing marker become empty comments before any text, with any
   * spaces and any control dashes; and a comment has a dash for each side that has any.
   */
  lemma MarkersBecomeComments(left: string, lead: string, name: string, tail: string, right: string, t: string)
    requires Dashes(left) && AllWs(lead) && AllWs(tail) && Dashes(right)
    requires name == "generation" || name == "endgeneration"
    ensures Strip("{%" + left + lead + name + tail + right + "%}" + t)
            == "{#" + (if left == [] then "" else "-") + (if right == [] then "" else "-") + "#}" + Strip(t)
  {
    hide Name, Strip, Dashes, AllWs;
    var inner := Spelled(left, lead, name, tail, right);
    assert IsName(name) by { MarkerIsName(name); }
    assert Plain(name);
    SpelledNames(left, lead, name, tail, right);
    SpelledIsPlain(left, lead, name, tail, right);
    SpelledEnds(left, lead, name, tail, right);
    MarkerIsStripped(inner, t);
    TagIsSpelled(left, lead, name, tail, right, t);
    assert EmptyComment(inner) == "{#" + (if left == [] then "" else "-") + (if right == [] then "" else "-") + "#}";
  }

  lemma MarkerIsName(name: string)
    requires name == "generation" || name == "endgeneration" || name == "raw" || name == "endraw"
    ensures IsName(name)
  {}

  lemma TagIsSpelled(left: string, lead: string, name: string, tail: string, right: string, t: string)
    ensures "{%" + left + lead + name + tail + right + "%}" + t
            == "{%" + Spelled(left, lead, name, tail, right) + "%}" + t
  {
    assert left + lead + name + tail + right == left + (lead + (name + (tail + right)));
    assert "{%" + left + lead + name + tail + right == "{%" + (left + lead + name + tail + right);
  }

  /** A plain tag that names anything else, and opens no raw block, stays. */
  lemma StatementIsKept(inner: string, t: string)
    requires Plain(inner) && Name(inner) !in {"generation", "endgeneration", "raw"}
    ensures Strip("{%" + inner + "%}" + t) == "{%" + inner + "%}" + Strip(t)
  {
    hide Name, Inner, First, Strip;
    var tag := "{%" + inner + "%}";
    PlainStarts(inner, t);
    PlainCut(inner, t);
    StripBehind(Statement(tag), t);
  }

  // ---- raw blocks -------------------------------------------------------------------

  /** The next tag ahead, behind a text that opens none. */
  lemma NextPlainTag(y: string, inner: string, t: string)
    requires '{' !in y && Plain(inner)
    ensures var s := y + ("{%" + inner + "%}" + t);
            var end := |y| + |inner| + 4;
            NextTag(s) == Some((|y| + 2, end)) && s[|y| + 2..end] == inner + "%}" && s[end..] == t
  {
    hide TagLen, Find;
    var u := "{%" + inner + "%}" + t;
    PlainCut(inner, t);
    PlainTagBefore(inner, t);
    OpensHere(u);
    FindPast(y, u, "{%");
    DropPast(y, u, 2);
    DropPast(y, u, |inner| + 4);
    TailSlice(y + u, |y|, 2, |inner| + 4);
    CutJoin(y, u);
  }

  lemma OpensHere(u: string)
    requires |u| >= 2 && u[0] == '{' && u[1] == '%'
    ensures Find(u, "{%") == Some(0)
  {
    assert u[..2] == "{%";
  }

  lemma RawNames()
    ensures Name(" raw ") == "raw" && Name(" endraw ") == "endraw"
  {
    hide Name;
    assert AllWs(" ") && Dashes("");
    MarkerIsName("raw");
    MarkerIsName("endraw");
    SpelledNames("", " ", "raw", " ", "");
    SpelledNames("", " ", "endraw", " ", "");
    assert Spelled("", " ", "raw", " ", "") == " raw " && Spelled("", " ", "endraw", " ", "") == " endraw ";
  }

  const RAW := "{% raw %}"
  const ENDRAW := "{% endraw %}"

  /** The block a raw tag opens ends behind its `endraw`, past any plain tag in it. */
  lemma RawBlockEnds(y: string, inner: string, z: string, t: string, c: char)
    requires '{' !in y && '{' !in z && Plain(inner)
    requires c in inner && c !in "endraw" && c != '-' && !IsWs(c)
    ensures var s := y + ("{%" + inner + "%}" + (z + (ENDRAW + t)));
            TagEndingLen(s, EndsRaw) == Some(|y| + |inner| + 4 + |z| + 12)
  {
    hide NextTag, Name, Inner;
    var rest := z + (ENDRAW + t);
    NextPlainTag(y, inner, rest);
    assert !EndsRaw(inner + "%}") by {
      NameKeeps(inner, c);
      PlainCut(inner, t);
    }
    assert ENDRAW == "{%" + " endraw " + "%}";
    NextPlainTag(z, " endraw ", t);
    assert EndsRaw(" endraw " + "%}") by {
      RawNames();
      PlainCut(" endraw ", t);
    }
  }

  /** A marker, or any other plain tag, stays as it is between `raw` and `endraw`. */
  lemma RawIsKept(y: string, inner: string, z: string, t: string, c: char)
    requires '{' !in y && '{' !in z && '"' !in inner && '\'' !in inner && '%' !in inner
    requires c in inner && c !in "endraw" && c != '-' && !IsWs(c)
    ensures var block := "{% raw %}" + y + "{%" + inner + "%}" + z + "{% endraw %}";
            Strip(block + t) == block + Strip(t)
  {
    hide TagEndingLen, First, Strip, Name, Inner;
    var body := y + ("{%" + inner + "%}" + (z + ENDRAW));
    var block := "{% raw %}" + y + "{%" + inner + "%}" + z + "{% endraw %}";
    assert block == RAW + body;
    var u := body + t;
    assert u == y + ("{%" + inner + "%}" + (z + (ENDRAW + t)));
    assert RAW == "{%" + " raw " + "%}" && block + t == RAW + u;
    RawBlockEnds(y, inner, z, t, c);
    RawNames();
    PlainStarts(" raw ", u);
    PlainCut(" raw ", u);
    CutJoin(block, t);
    StripBehind(Raw(block), t);
  }

  // ---- expressions and comments -----------------------------------------------------

  lemma {:induction false} QuotedTagLen(x: string, t: string)
    requires '"' !in x && '\\' !in x
    ensures TagLen(x + ("\" }}" + t), "}}", Some('"')) == Some(|x| + 4)
  {
    var s := x + ("\" }}" + t);
    if x == [] {
      var u, v := " }}" + t, "}}" + t;
      assert s[1..] == u && u[1..] == v && u[..2][0] == ' ' && v[..2] == "}}";
      assert TagLen(v, "}}", None) == Some(2) && TagLen(u, "}}", None) == Some(3);
    } else {
      assert s[1..] == x[1..] + ("\" }}" + t);
      QuotedTagLen(x[1..], t);
    }
  }

  /** An expression that prints a text keeps it, markers and closers in it included. */
  lemma QuotedIsKept(x: string, t: string)
    requires '"' !in x && '\\' !in x
    ensures Strip("{{ \"" + x + "\" }}" + t) == "{{ \"" + x + "\" }}" + Strip(t)
  {
    hide Strip;
    var g := "{{ \"" + x + "\" }}";
    var s := g + t;
    assert s[2..] == " \"" + (x + ("\" }}" + t));
    QuotedTagLen(x, t);
    assert s[2..][0] == ' ' && s[2..][1..] == "\"" + (x + ("\" }}" + t)) && s[2..][..2][0] == ' ';
    assert s[2..][1..][0] == '"' && s[2..][1..][1..] == x + ("\" }}" + t);
    assert TagLen(s[2..], "}}", None) == Some(|x| + 6);
    CutJoin(g, t);
    StripBehind(Expression(g), t);
  }

  lemma ClosesHere(u: string)
    requires |u| >= 2 && u[0] == '#' && u[1] == '}'
    ensures Find(u, "#}") == Some(0)
  {
    assert u[..2] == "#}";
  }

  /** A comment keeps what is commented out. */
  lemma CommentIsKept(x: string, t: string)
    requires '#' !in x
    ensures Strip("{#" + x + "#}" + t) == "{#" + x + "#}" + Strip(t)
  {
    hide Strip, Find;
    var g := "{#" + x + "#}";
    var s := g + t;
    assert s[2..] == x + ("#}" + t);
    ClosesHere("#}" + t);
    FindPast(x, "#}" + t, "#}");
    CutJoin(g, t);
    StripBehind(Comment(g), t);
  }
}
