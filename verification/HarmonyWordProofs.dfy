/** What counts as a Harmony call and what does not, spelled out on replies. */
module HarmonyWordProofs {
  import opened Common
  import opened Text
  import opened Harmony
  import opened HarmonyProofs

  /** No `to=` in a text. */
  predicate NoTo(s: string) {
    forall i :: 0 <= i < |s| - 2 ==> !(s[i] == 't' && s[i + 1] == 'o' && s[i + 2] == '=')
  }

  /** One run: no space in it, and nothing a token starts with. */
  predicate OneRun(s: string) { forall i :: 0 <= i < |s| ==> !IsWs(s[i]) && s[i] != '<' }

  /** One bare word, as a format name is. */
  predicate OneWord(s: string) {
    forall c :: c in s ==> 'a' <= c <= 'z' || 'A' <= c <= 'Z' || '0' <= c <= '9' || c == '_'
  }

  /** No closing token in a text. */
  predicate NoClosing(s: string) { forall i :: 0 <= i <= |s| ==> !("<|call|>" <= s[i..]) }

  lemma {:induction false} NoClosingNotFound(s: string)
    requires NoClosing(s)
    ensures NoCall(s)
  {
    assert s[0..] == s;
    if s != [] {
      forall i | 0 <= i <= |s[1..]| ensures !("<|call|>" <= s[1..][i..]) {
        assert s[1..][i..] == s[i + 1..];
      }
      NoClosingNotFound(s[1..]);
    }
  }

  lemma {:induction false} NoToNotFound(s: string)
    requires NoTo(s)
    ensures Find(s, TO).None?
  {
    if |s| >= 3 { assert s[..3][0] == s[0] && s[..3][1] == s[0 + 1] && s[..3][2] == s[0 + 2]; }
    if s != [] {
      forall i | 0 <= i < |s[1..]| - 2
        ensures !(s[1..][i] == 't' && s[1..][i + 1] == 'o' && s[1..][i + 2] == '=')
      {
        assert s[1..][i] == s[i + 1];
      }
      NoToNotFound(s[1..]);
    }
  }

  /** No `to=` over a boundary at which it cannot stand either. */
  lemma NoToJoin(x: string, t: string)
    requires Find(x, TO).None? && Find(t, TO).None? && Apart(x, t)
    ensures Find(x + t, TO).None?
  {
    FindBefore(x, t);
  }

  lemma {:induction false} RunHasNoBreak(s: string)
    requires OneRun(s)
    ensures FindBreak(s).None?
  {
    if s != [] { RunHasNoBreak(s[1..]); }
  }

  lemma WordIsRun(s: string)
    requires OneWord(s)
    ensures OneRun(s) && Find(s, TO).None?
  {
    forall i | 0 <= i < |s| ensures !IsWs(s[i]) && s[i] != '<' {
      assert s[i] in s;
    }
    NoEqualsNoTo(s);
  }

  /** No text without an equals sign holds one. */
  lemma NoEqualsNoTo(s: string)
    requires '=' !in s
    ensures Find(s, TO).None?
  {
    hide Find;
    NoToNotFound(s);
  }

  lemma TokensHaveNoTo()
    ensures Find(MESSAGE, TO).None? && Find(CALL, TO).None? && Find(" ", TO).None? && Find("functions.", TO).None?
  {
    hide Find;
    NoEqualsNoTo(MESSAGE);
    NoEqualsNoTo(CALL);
    NoEqualsNoTo(" ");
    NoEqualsNoTo("functions.");
  }

  // ---- a boundary -------------------------------------------------------------------

  /** After a recipient and a space, what stands next decides. */
  lemma RealIsNext(r: string, rest: string)
    requires OneRun(r) && rest != [] && !IsWs(rest[0])
    ensures FindBreak(r + (" " + rest)) == Some(|r|)
    ensures IsReal(r + (" " + rest)) == StartsWithMarker(rest)
  {
    hide StartsWithMarker, FindBreak;
    RunHasNoBreak(r);
    BreakAfter(r, " " + rest);
    CutJoin(r, " " + rest);
    assert TrimStart(" " + rest) == rest by { CutJoin(" ", rest); }
  }

  /** A word right before a token, or the token itself, makes a boundary; no other run does. */
  lemma WordDecides(word: string, t: string)
    requires OneRun(word) && word != [] && t != [] && IsBreak(t[0])
    ensures StartsWithMarker(word + t) <==> OneWord(word) && StartsWith(t, "<|")
  {
    hide FindBreak;
    RunHasNoBreak(word);
    BreakAfter(word, t);
    CutJoin(word, t);
    assert (word + t)[0] == word[0] && (|word + t| >= 2 ==> (word + t)[..2][0] == word[0]);
    assert OneWord(word) <==> AllWord(word) by {
      assert forall i :: 0 <= i < |word| ==> word[i] in word;
      assert forall c :: c in word ==> exists i :: 0 <= i < |word| && word[i] == c;
    }
  }

  /** The one `to=` of a text decides whether it has a boundary. */
  lemma OneToDecides(g: string, t: string)
    requires Find(g, TO).None? && Find(t, TO).None?
    ensures Markers(g + (TO + t), 0) == if IsReal(t) then [|g|] else []
  {
    hide IsReal, Find, Markers;
    FindBefore(g, TO + t);
    ToStartsTo(t);
    assert Find(g + (TO + t), TO) == Some(|g|);
    MarkersStep(g + (TO + t), |g|, 0);
    assert g + (TO + t) == (g + TO) + t && |g + TO| == |g| + 3;
    CutJoin(g + TO, t);
    NoToNoMarkers(t, |g| + 3);
  }

  // ---- what is a call ---------------------------------------------------------------

  function Closing(closed: bool): string { if closed then "<|call|>" else "" }

  /** A plain call as it is written: the recipient, a bare word or none, a message, JSON. */
  function Plain(g: string, r: string, word: string, p: string, closed: bool): Written {
    Written(g, r, " " + word, p, closed)
  }

  lemma PlainBody(g: string, r: string, word: string, p: string, closed: bool)
    ensures Body(Plain(g, r, word, p, closed)) == r + (" " + (word + (MESSAGE + (p + Closing(closed)))))
    ensures PrintCall(Plain(g, r, word, p, closed)) == g + (TO + Body(Plain(g, r, word, p, closed)))
  {
    var c := Close(Plain(g, r, word, p, closed));
    assert c == Closing(closed);
    assert r + (" " + word) + MESSAGE + p + c == r + (" " + (word + (MESSAGE + (p + c))));
  }

  lemma PlainHasNoTo(r: string, word: string, p: string, closed: bool)
    requires Find(r, TO).None? && OneWord(word) && Find(p, TO).None?
    ensures Find(r + (" " + (word + (MESSAGE + (p + Closing(closed))))), TO).None?
  {
    hide Find, OneWord;
    TokensHaveNoTo();
    WordIsRun(word);
    if !closed { assert p + Closing(closed) == p; } else { NoToJoin(p, CALL); }
    NoToJoin(MESSAGE, p + Closing(closed));
    NoToJoin(word, MESSAGE + (p + Closing(closed)));
    NoToJoin(" ", word + (MESSAGE + (p + Closing(closed))));
    NoToJoin(r, " " + (word + (MESSAGE + (p + Closing(closed)))));
  }

  lemma PlainIsReal(r: string, word: string, t: string)
    requires OneRun(r) && OneWord(word)
    ensures IsReal(r + (" " + (word + (MESSAGE + t))))
  {
    hide IsReal, FindBreak, OneRun, OneWord;
    var rest := word + (MESSAGE + t);
    assert (MESSAGE + t)[..2] == "<|";
    WordIsRun(word);
    if word == [] {
      assert rest == MESSAGE + t;
      TokenStarts(rest);
      assert rest[0] == '<' && !IsWs('<');
    } else {
      WordDecides(word, MESSAGE + t);
      assert rest[0] == word[0] && !IsWs(word[0]) by { RunStarts(word); }
    }
    RealIsNext(r, rest);
  }

  lemma RunStarts(s: string)
    requires OneRun(s) && s != []
    ensures !IsWs(s[0])
  {}

  /** The first message token is the header's, for no token can start before it. */
  lemma MessageIsNext(r: string, word: string)
    requires OneRun(r) && OneRun(word)
    ensures Find(TO + r + (" " + word) + MESSAGE, MESSAGE) == Some(|TO + r + (" " + word)|)
  {
    var x := TO + r + (" " + word);
    assert MESSAGE[0] !in x && MESSAGE[..|MESSAGE|] == MESSAGE;
    FindPast(x, MESSAGE, MESSAGE);
  }

  lemma NameIsRun(n: string, r: string)
    requires OneRun(n) && n != [] && NoTo(n) && !("functions." <= n) && (r == n || r == "functions." + n)
    ensures OneRun(r) && Find(r, TO).None? && StripPrefix(r, NAMESPACE) == n
  {
    hide Find, IsWs;
    var f := "functions.";
    NoToNotFound(n);
    if r != n {
      assert OneRun(f) by { LettersAreNoSpace(f); }
      TokensHaveNoTo();
      NoToJoin(f, n);
      CutJoin(f, n);
      assert forall i :: 0 <= i < |r| ==> r[i] == if i < |f| then f[i] else n[i - |f|];
    } else if |f| <= |n| {
      assert n[..|f|] != f;
    }
  }

  lemma LettersAreNoSpace(s: string)
    requires forall c :: c in s ==> 'a' <= c <= 'z' || c == '.'
    ensures OneRun(s)
  {
    forall i | 0 <= i < |s| ensures !IsWs(s[i]) && s[i] != '<' { assert s[i] in s; }
  }

  lemma PlainIsOk(g: string, n: string, r: string, word: string, p: string, closed: bool)
    requires NoTo(g) && OneRun(n) && n != [] && NoTo(n) && !("functions." <= n) && (r == n || r == "functions." + n)
    requires OneWord(word) && NoTo(p)
    ensures WrittenOk(Plain(g, r, word, p, closed))
    ensures StripPrefix(r, NAMESPACE) == n
  {
    hide Find, OneRun, OneWord, NoTo, IsReal, Markers, FindBreak, Body, PrintCall, StripPrefix, IsWs;
    NoToNotFound(g);
    NoToNotFound(p);
    NameIsRun(n, r);
    RunHasNoBreak(r);
    WordIsRun(word);
    MessageIsNext(r, word);
    PlainBody(g, r, word, p, closed);
    PlainHasNoTo(r, word, p, closed);
    PlainIsReal(r, word, p + Closing(closed));
    OneToDecides(g, Body(Plain(g, r, word, p, closed)));
    NoToNoMarkers(Body(Plain(g, r, word, p, closed)), 0);
    SpaceBreaks();
  }

  lemma SpaceBreaks()
    ensures IsBreak(' ')
  {}

  /**
   * A reply with one plain call, prose before it: the name is the recipient with or without
   * its namespace, the arguments are the JSON of the trimmed payload, and no call is read
   * where that does not parse. A call cut off before its closing token is read as well.
   */
  lemma PlainCallIsRead<J>(g: string, n: string, r: string, word: string, p: string, closed: bool,
                           json: string -> Option<J>)
    requires NoTo(g) && OneRun(n) && n != [] && NoTo(n) && !("functions." <= n) && (r == n || r == "functions." + n)
    requires OneWord(word) && NoTo(p) && (!closed ==> NoClosing(p))
    ensures var reply := g + "to=" + r + " " + word + "<|message|>" + p + if closed then "<|call|>" else "";
            ParseToolCalls(reply, json)
            == match json(Trim(p)) case None => [] case Some(j) => [Call(n, j)]
  {
    hide WrittenOk, Body, PrintCall, StripPrefix, OneRun, OneWord, NoTo, Markers, ParseToolCalls, Plain;
    hide FirstMarker, NoClosing, NoCall;
    var w := Plain(g, r, word, p, closed);
    assert w.closed == closed && w.payload == p && w.recipient == r by { PlainIs(g, r, word, p, closed); }
    var reply := g + "to=" + r + " " + word + "<|message|>" + p + if closed then "<|call|>" else "";
    PlainIsOk(g, n, r, word, p, closed);
    PlainIsSpelled(g, r, word, p, closed);
    assert PrintCall(w) + [] == reply;
    NothingCalls();
    if !closed { NoClosingNotFound(p); }
    NothingIsRead(json);
    CallIsRead(w, [], json);
  }

  lemma PlainIs(g: string, r: string, word: string, p: string, closed: bool)
    ensures var w := Plain(g, r, word, p, closed); w.recipient == r && w.payload == p && w.closed == closed
  {}

  lemma PlainIsSpelled(g: string, r: string, word: string, p: string, closed: bool)
    ensures PrintCall(Plain(g, r, word, p, closed))
            == g + "to=" + r + " " + word + "<|message|>" + p + if closed then "<|call|>" else ""
  {
    hide Body;
    PlainBody(g, r, word, p, closed);
    assert g + "to=" + r + " " + word + "<|message|>" + p + Closing(closed)
           == g + ("to=" + (r + (" " + (word + ("<|message|>" + (p + Closing(closed)))))));
  }

  /** Without a name there is no call, whatever follows the namespace. */
  lemma NamelessIsNoCall<J>(g: string, r: string, word: string, p: string, closed: bool, json: string -> Option<J>)
    requires NoTo(g) && OneWord(word) && NoTo(p) && (r == "" || r == "functions.")
    ensures var reply := g + "to=" + r + " " + word + "<|message|>" + p + if closed then "<|call|>" else "";
            ParseToolCalls(reply, json) == []
  {
    hide Find, OneRun, OneWord, NoTo, IsReal, Markers, FindBreak, Body, PrintCall, WindowCall;
    var body := Body(Plain(g, r, word, p, closed));
    var rest := word + (MESSAGE + (p + Closing(closed)));
    NoToNotFound(g);
    NoToNotFound(p);
    LettersAreNoSpace(r);
    TokensHaveNoTo();
    NoEqualsNoTo(r);
    RunHasNoBreak(r);
    PlainBody(g, r, word, p, closed);
    PlainIsSpelled(g, r, word, p, closed);
    PlainHasNoTo(r, word, p, closed);
    PlainIsReal(r, word, p + Closing(closed));
    OneToDecides(g, body);
    OneWindow(g, body, json);
    SpaceBreaks();
    BreakAfter(r, " " + rest);
    NamelessWindow(r, " " + rest, json);
  }

  lemma OneWindow<J>(g: string, body: string, json: string -> Option<J>)
    requires Markers(g + (TO + body), 0) == [|g|]
    ensures var c := WindowCall(TO + body, json);
            ParseToolCalls(g + (TO + body), json) == if c.Some? then [c.value] else []
  {
    hide Markers, WindowCall, Windows, Collect;
    var text := g + (TO + body);
    MarkersAreOrdered(text, 0);
    OneCut(g, TO + body);
    CollectOne(TO + body, json);
  }

  lemma OneCut(g: string, rest: string)
    requires |rest| >= |TO|
    ensures Ordered([|g|], 0, |g + rest|) && Windows(g + rest, [|g|]) == [rest]
  {
    CutJoin(g, rest);
    assert (g + rest)[|g|..|g + rest|] == rest;
    assert Windows(g + rest, []) == [] && [|g|][1..] == [];
  }

  lemma CollectOne<J>(w: string, json: string -> Option<J>)
    requires |w| >= |TO|
    ensures var c := WindowCall(w, json); Collect([w], json) == if c.Some? then [c.value] else []
  {
    hide WindowCall;
    assert [w][1..] == [] && Collect([w][1..], json) == [];
  }

  lemma NamelessWindow<J>(r: string, t: string, json: string -> Option<J>)
    requires (r == "" || r == "functions.") && FindBreak(r + t) == Some(|r|)
    ensures WindowCall(TO + (r + t), json).None?
  {
    hide FindBreak, Find, FindLast;
    CutJoin(TO, r + t);
    CutJoin(r, t);
    assert r == "functions." ==> r[..|NAMESPACE|] == NAMESPACE && r[|NAMESPACE|..] == [];
  }

  lemma NothingCalls()
    ensures NoCall([])
  {}

  lemma NothingIsRead<J>(json: string -> Option<J>)
    ensures Markers([], 0) == [] && ParseToolCalls([], json) == []
  {
    NothingHasNoMarkers(0);
  }

  // ---- what is none -----------------------------------------------------------------

  /**
   * A `to=` in prose opens no call: not when more than one word stands between it and the
   * next token, nor when what stands right before that token is no bare word.
   */
  lemma ProseIsNoCall<J>(g: string, r: string, run: string, rest: string, json: string -> Option<J>)
    requires NoTo(g) && OneRun(r) && NoTo(r) && OneRun(run) && run != [] && NoTo(run) && NoTo(rest)
    ensures ParseToolCalls(g + "to=" + r + " " + run + " " + rest, json) == []
    ensures !OneWord(run) ==> ParseToolCalls(g + "to=" + r + " " + run + "<|" + rest, json) == []
  {
    hide Find, OneRun, OneWord, NoTo, IsBreak;
    SpaceBreaks();
    var t := " " + rest;
    assert t[0] == ' ' && IsBreak('<') by { LessBreaks(); }
    TokensHaveNoTo();
    NoToNotFound(rest);
    NoToJoin(" ", rest);
    UnrealIsNoCall(g, r, run, t, json);
    assert g + "to=" + r + " " + run + " " + rest == g + "to=" + r + " " + run + t;
    if !OneWord(run) {
      OpenHasNoTo();
      NoToJoin("<|", rest);
      UnrealIsNoCall(g, r, run, "<|" + rest, json);
      assert g + "to=" + r + " " + run + "<|" + rest == g + "to=" + r + " " + run + ("<|" + rest);
    }
  }

  lemma LessBreaks()
    ensures IsBreak('<')
  {}

  lemma OpenHasNoTo()
    ensures Find("<|", TO).None?
  {
    NoCharNoFind("<|", TO, 't');
  }

  lemma UnrealIsNoCall<J>(g: string, r: string, run: string, t: string, json: string -> Option<J>)
    requires NoTo(g) && OneRun(r) && NoTo(r) && OneRun(run) && run != [] && NoTo(run)
    requires t != [] && IsBreak(t[0]) && Find(t, TO).None? && (t[0] == ' ' || t[0] == '<')
    requires !(OneWord(run) && StartsWith(t, "<|"))
    ensures ParseToolCalls(g + "to=" + r + " " + run + t, json) == []
  {
    hide Find, OneRun, OneWord, NoTo, IsReal, Markers, IsBreak, StartsWithMarker, FindBreak;
    var after := r + (" " + (run + t));
    assert g + "to=" + r + " " + run + t == g + (TO + after);
    RunStarts(run);
    WordDecides(run, t);
    RealIsNext(r, run + t);
    NoToNotFound(g);
    NoToNotFound(r);
    NoToNotFound(run);
    TokensHaveNoTo();
    NoToJoin(run, t);
    NoToJoin(" ", run + t);
    NoToJoin(r, " " + (run + t));
    OneToDecides(g, after);
  }
}
