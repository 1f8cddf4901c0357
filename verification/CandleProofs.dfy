/** The candle record follows the cache, and every image row lands on its own token. */
module CandleProofs {
  import opened Common
  import opened CandleSpec

  /** The record is empty or the cache's own tokens; a checkpoint is a prefix of that cache. */
  ghost predicate Inv(s: State) {
    && (s.record == [] || s.record == Tokens(s.cells))
    && (s.checkpoint.Some? ==> s.record != [] && s.checkpoint.value <= s.cells)
  }

  lemma TokensPrefix(a: seq<Cell>, b: seq<Cell>)
    requires a <= b
    ensures Tokens(a) == Tokens(b)[..|a|]
  {}

  /**
   * `reusable_prefix` never claims a position whose cached token differs from the
   * prompt's, claims exactly what the cache then holds, and leaves a token to evaluate.
   */
  lemma {:induction false} ReuseIsTrue(s: State, prompt: seq<Token>, env: Env)
    requires Inv(s)
    ensures var (cells, reuse) := Rewound(s, prompt, env);
            && (reuse > 0 ==> reuse < |prompt| && |cells| == reuse && cells <= s.cells
                              && Tokens(cells) == prompt[..reuse])
            && (reuse == 0 ==> cells == s.cells || cells == [])
  {
    var shared := ReusablePrefix(s.record, prompt);
    var (cells, reuse) := Rewound(s, prompt, env);
    if reuse > 0 {
      TokensPrefix(cells, s.cells);
      assert s.record[..reuse] == s.record[..shared][..reuse] == prompt[..shared][..reuse] == prompt[..reuse];
    }
  }

  /** Staging keeps the reuse or gives it up whole. */
  lemma StagingKeepsOrForfeits(prompt: seq<Token>, reuse: nat, rows: Option<seq<Row>>, env: Env)
    requires reuse <= |prompt|
    ensures Staged(prompt, reuse, rows, env).1 == reuse || Staged(prompt, reuse, rows, env).1 == 0
  {}

  /** A generation leaves a prefix of the prompt and what was generated. */
  lemma {:induction false} GenerationIsPrefix(cells: seq<Cell>, prompt: seq<Token>, reuse: nat, rows: seq<Row>, env: Env)
    requires reuse <= |prompt| && (reuse > 0 ==> Tokens(cells) == prompt[..reuse])
    ensures var after := Generated(cells, prompt, reuse, rows, env);
            |after| <= |prompt + env.generated| && Tokens(after) == (prompt + env.generated)[..|after|]
  {
    var base := if reuse == 0 then [] else cells;
    var all := Evaluated(base, prompt[reuse..], rows, env.generated);
    assert Tokens(Plain(env.generated)) == env.generated;
    assert Tokens(all) == prompt[..reuse] + prompt[reuse..] + env.generated;
    assert prompt[..reuse] + prompt[reuse..] == prompt;
    TokensPrefix(Generated(cells, prompt, reuse, rows, env), all);
  }

  /**
   * After every call, successful or failed, and whatever the library answered, the record
   * is empty or exactly what the cache holds.
   */
  lemma {:induction false} RunKeepsInv(s: State, prompt: seq<Token>, rows: Option<seq<Row>>, env: Env)
    requires Inv(s)
    ensures Inv(Run(s, prompt, rows, env))
  {
    hide Rewound, Staged, Generated;
    var (cells, rewound) := Rewound(s, prompt, env);
    ReuseIsTrue(s, prompt, env);
    var (staged, reuse) := Staged(prompt, Min(rewound, |prompt|), rows, env);
    StagingKeepsOrForfeits(prompt, Min(rewound, |prompt|), rows, env);
    GenerationIsPrefix(cells, prompt, reuse, staged, env);
  }

  // ---- that anything is reused ------------------------------------------------------

  /**
   * After a call whose cache holds anything, the record is exactly that much of the prompt
   * and the answer, though the last token of an answer is never in the cache; and a
   * checkpoint is kept with it if the call succeeded and took one. Of a model that shows no
   * cache nothing is recorded.
   */
  lemma RecordIsKept(s: State, prompt: seq<Token>, rows: Option<seq<Row>>, env: Env)
    requires Inv(s)
    ensures !s.exposesCache ==> var t := Run(s, prompt, rows, env); t.record == [] && t.checkpoint.None?
    ensures s.exposesCache ==>
            var t := Run(s, prompt, rows, env);
            && |t.cells| <= |prompt + env.generated|
            && t.record == (prompt + env.generated)[..|t.cells|]
            && t.checkpoint == (if t.cells != [] && !env.fails && env.checkpointed
                                then Some(t.cells[..Min(|prompt|, |t.cells|)]) else None)
  {
    hide Rewound, Staged, Generated, Annotate;
    var (cells, rewound) := Rewound(s, prompt, env);
    ReuseIsTrue(s, prompt, env);
    var (staged, reuse) := Staged(prompt, Min(rewound, |prompt|), rows, env);
    StagingKeepsOrForfeits(prompt, Min(rewound, |prompt|), rows, env);
    GenerationIsPrefix(cells, prompt, reuse, staged, env);
  }

  /**
   * And an honoured rewind reuses all of it that a next prompt shares: to the token, or to
   * the checkpoint where the cache goes back no further; and nothing where it has none, or
   * one the prompt does not extend.
   */
  lemma HonouredRewindReuses(s: State, agreed: nat, prompt: seq<Token>, env: Env)
    requires Inv(s) && s.exposesCache && env.rewind.Done? && env.rewind.held >= |s.cells|
    requires agreed <= |s.record| && agreed < |prompt| && s.record[..agreed] == prompt[..agreed]
    ensures !s.needsCheckpoint ==> Rewound(s, prompt, env).1 >= agreed
    ensures s.needsCheckpoint && s.checkpoint.Some? && 0 < |s.checkpoint.value| <= agreed ==>
              Rewound(s, prompt, env) == (s.checkpoint.value, |s.checkpoint.value|)
    ensures s.needsCheckpoint && (s.checkpoint.None? || |s.checkpoint.value| >= |prompt|
                                  || Tokens(s.checkpoint.value) != prompt[..|s.checkpoint.value|]) ==>
              Rewound(s, prompt, env) == (s.cells, 0)
  {
    CommonPrefixAtLeast(s.record, prompt, agreed);
    if s.checkpoint.Some? {
      var c := s.checkpoint.value;
      assert c[..|c|] == c && |c| <= |s.cells|;
      TokensPrefix(c, s.cells);
      if |c| <= ReusablePrefix(s.record, prompt) { PrefixOfPrefix(s.record, prompt, ReusablePrefix(s.record, prompt), |c|); }
    }
  }

  lemma PrefixOfPrefix(a: seq<Token>, b: seq<Token>, k: nat, n: nat)
    requires n <= k <= |a| && k <= |b| && a[..k] == b[..k]
    ensures a[..n] == b[..n]
  {
    assert a[..n] == a[..k][..n] && b[..n] == b[..k][..n];
  }

  /**
   * A rewind that is not honoured reuses nothing: refused, it leaves the cache as it was, and
   * broken, empty; where the prompt shares nothing, or a model shows no cache, none is asked for.
   */
  lemma DeniedRewindReusesNothing(s: State, prompt: seq<Token>, env: Env)
    requires !s.needsCheckpoint
    ensures var asked := s.exposesCache && s.record != [] && |prompt| > 1 && s.record[0] == prompt[0];
            && (!asked || env.rewind.Refused? ==> Rewound(s, prompt, env) == (s.cells, 0))
            && (asked && env.rewind.Broken? ==> Rewound(s, prompt, env) == ([], 0))
  {
    SharesFirst(s.record, prompt);
  }

  /** A prompt with no image token keeps its reuse and is given no rows, however many there are. */
  lemma TextKeepsReuse(prompt: seq<Token>, reuse: nat, rows: Option<seq<Row>>, env: Env)
    requires reuse <= |prompt| && 258880 !in prompt
    ensures Staged(prompt, reuse, rows, env) == ([], reuse)
  {
    NoImages(prompt);
    NoImages(prompt[..reuse]);
    NoImages(prompt[reuse..]);
  }

  lemma {:induction false} NoImages(ts: seq<Token>)
    requires 258880 !in ts
    ensures CountImages(ts) == 0
  {
    if ts != [] { NoImages(ts[..|ts| - 1]); }
  }

  // ---- rows -------------------------------------------------------------------------

  lemma {:induction false} CountConcat(a: seq<Token>, b: seq<Token>)
    ensures CountImages(a + b) == CountImages(a) + CountImages(b)
  {
    if b == [] {
      assert a + b == a;
    } else {
      var init := b[..|b| - 1];
      assert (a + b)[..|a + b| - 1] == a + init;
      CountConcat(a, init);
    }
  }

  /** A suffix prefilled with the rows of its own images is the whole prefill's suffix. */
  lemma AnnotateSplit(ts: seq<Token>, rows: seq<Row>, at: nat)
    requires at <= |ts| && CountImages(ts[..at]) <= |rows|
    ensures Annotate(ts, rows) == Annotate(ts[..at], rows) + Annotate(ts[at..], rows[CountImages(ts[..at])..])
  {
    hide CountImages;
    var skip := CountImages(ts[..at]);
    forall i | 0 <= i < at ensures Annotate(ts, rows)[i] == Annotate(ts[..at], rows)[i] {
      assert ts[..at][..i] == ts[..i];
    }
    forall i | at <= i < |ts| ensures Annotate(ts, rows)[i] == Annotate(ts[at..], rows[skip..])[i - at] {
      CountBetween(ts, at, i);
    }
  }

  lemma CountBetween(ts: seq<Token>, at: nat, i: nat)
    requires at <= i <= |ts|
    ensures CountImages(ts[..i]) == CountImages(ts[..at]) + CountImages(ts[at..][..i - at])
  {
    assert ts[..i] == ts[..at] + ts[at..][..i - at];
    CountConcat(ts[..at], ts[at..][..i - at]);
  }

  lemma CountPrefix(ts: seq<Token>, i: nat)
    requires i < |ts|
    ensures CountImages(ts[..i]) + (if ts[i] == IMAGE_SOFT_TOKEN then 1 else 0) <= CountImages(ts)
  {
    assert ts == ts[..i] + [ts[i]] + ts[i + 1..];
    CountConcat(ts[..i], [ts[i]]);
    CountConcat(ts[..i] + [ts[i]], ts[i + 1..]);
    assert [ts[i]][..0] == [];
  }

  /** The rows a request means: those staged, unless nothing was. */
  function RowsOf(rows: Option<seq<Row>>): seq<Row> { if rows.Some? then rows.value else [] }

  /** What a full prefill of the request would leave, and the answer after it. */
  function Ideal(prompt: seq<Token>, rows: seq<Row>, generated: seq<Token>): seq<Cell> {
    Annotate(prompt, rows) + Plain(generated)
  }

  /**
   * When markers and rows disagree in number, reuse is given up and every row is staged;
   * otherwise it is kept.
   */
  lemma {:induction false} MismatchForfeits(prompt: seq<Token>, reuse: nat, all: seq<Row>, env: Env)
    requires reuse <= |prompt| && CountImages(prompt) > 0 && !env.narrowErr
    ensures CountImages(prompt) != |all| ==> Staged(prompt, reuse, Some(all), env) == (all, 0)
    ensures CountImages(prompt) == |all| ==> Staged(prompt, reuse, Some(all), env).1 == reuse
  {
    assert prompt == prompt[..reuse] + prompt[reuse..];
    CountConcat(prompt[..reuse], prompt[reuse..]);
  }

  /**
   * One call: every image token evaluated in the suffix gets the row a full prefill would
   * have given it, whatever part of the prompt was reused and whether counts agreed.
   */
  lemma {:induction false} SuffixRowsAreRight(prompt: seq<Token>, reuse: nat, rows: Option<seq<Row>>, env: Env)
    requires reuse <= |prompt|
    ensures var (staged, reuse') := Staged(prompt, reuse, rows, env);
            reuse' <= |prompt|
            && Annotate(prompt[reuse'..], staged) == Annotate(prompt, RowsOf(rows))[reuse'..]
  {
    hide Annotate, CountImages;
    var all := RowsOf(rows);
    var skip, take := CountImages(prompt[..reuse]), CountImages(prompt[reuse..]);
    assert prompt == prompt[..reuse] + prompt[reuse..];
    CountConcat(prompt[..reuse], prompt[reuse..]);
    var (staged, reuse') := Staged(prompt, reuse, rows, env);
    if staged == all && reuse' == 0 {
      assert prompt[0..] == prompt && Annotate(prompt, all)[0..] == Annotate(prompt, all);
    } else if rows.None? || (|all| > 0 && CountImages(prompt) == 0) {
      SuffixWithoutRows(prompt, all, reuse);
    } else {
      assert skip + take == |all| && reuse' == reuse;
      SuffixOfAligned(prompt, all, reuse, staged);
    }
  }

  lemma SuffixOfAligned(prompt: seq<Token>, all: seq<Row>, at: nat, staged: seq<Row>)
    requires at <= |prompt| && CountImages(prompt[..at]) + CountImages(prompt[at..]) == |all|
    requires staged == all[CountImages(prompt[..at])..] || (staged == [] && CountImages(prompt[at..]) == 0)
    ensures Annotate(prompt[at..], staged) == Annotate(prompt, all)[at..]
  {
    hide CountImages, Annotate;
    var skip := CountImages(prompt[..at]);
    AnnotateSplit(prompt, all, at);
    if staged == [] { NoImagesNoRows(prompt[at..], staged, all[skip..]); }
    assert Annotate(prompt, all)[at..] == Annotate(prompt[at..], all[skip..]) by {
      assert |Annotate(prompt[..at], all)| == at;
    }
  }

  /** Without images, rows do not matter; without rows, images do not. */
  lemma NoImagesNoRows(ts: seq<Token>, a: seq<Row>, b: seq<Row>)
    requires CountImages(ts) == 0
    ensures Annotate(ts, a) == Annotate(ts, b)
  {
    forall i | 0 <= i < |ts| ensures Annotate(ts, a)[i] == Annotate(ts, b)[i] {
      CountPrefix(ts, i);
    }
  }

  lemma AnnotateIsPlain(ts: seq<Token>, rows: seq<Row>)
    requires CountImages(ts) == 0 || rows == []
    ensures Annotate(ts, rows) == Plain(ts)
  {
    hide CountImages;
    forall i | 0 <= i < |ts| ensures Annotate(ts, rows)[i] == Plain(ts)[i] {
      CountPrefix(ts, i);
    }
  }

  lemma SuffixWithoutRows(prompt: seq<Token>, all: seq<Row>, at: nat)
    requires at <= |prompt| && (CountImages(prompt) == 0 || all == [])
    ensures Annotate(prompt[at..], []) == Annotate(prompt, all)[at..]
  {
    hide CountImages, Annotate;
    AnnotateIsPlain(prompt, all);
    AnnotateIsPlain(prompt[at..], []);
  }

  /** Every image in the cache got a row. */
  predicate AllRowed(cells: seq<Cell>) {
    forall i :: 0 <= i < |cells| ==> cells[i].token == IMAGE_SOFT_TOKEN ==> cells[i].row.Some?
  }

  /** Cells that some earlier request's prefill and answer left, cut anywhere. */
  ghost predicate Left(cells: seq<Cell>, prompt: seq<Token>, rows: seq<Row>, generated: seq<Token>) {
    cells <= Ideal(prompt, rows, generated)
  }

  /** The row a request's prefill gives the image at position `i`: none past its prompt. */
  function RowAt(prompt: seq<Token>, rows: seq<Row>, i: nat): Option<Row> {
    if i < |prompt| && CountImages(prompt[..i]) < |rows| then Some(rows[CountImages(prompt[..i])]) else None
  }

  lemma AnnotateAt(prompt: seq<Token>, rows: seq<Row>, i: nat)
    requires i < |prompt|
    ensures Annotate(prompt, rows)[i]
            == Cell(prompt[i], if prompt[i] == IMAGE_SOFT_TOKEN then RowAt(prompt, rows, i) else None)
  {
    hide CountImages;
  }

  /** What a request left at a position, in terms of its own rows. */
  lemma LeftAt(cells: seq<Cell>, prompt: seq<Token>, rows: seq<Row>, generated: seq<Token>, i: nat)
    requires Left(cells, prompt, rows, generated) && i < |cells|
    ensures cells[i].row == if cells[i].token == IMAGE_SOFT_TOKEN then RowAt(prompt, rows, i) else None
  {
    hide Annotate, CountImages;
    assert cells[i] == Ideal(prompt, rows, generated)[i];
    if i < |prompt| { AnnotateAt(prompt, rows, i); }
  }

  /** Two requests mean the same rows at the images of the second one's first `n` tokens. */
  predicate SameRows(oldPrompt: seq<Token>, oldRows: seq<Row>, prompt: seq<Token>, rows: seq<Row>, n: nat)
    requires n <= |prompt|
  {
    forall i :: 0 <= i < n && prompt[i] == IMAGE_SOFT_TOKEN ==> RowAt(oldPrompt, oldRows, i) == RowAt(prompt, rows, i)
  }

  /**
   * The reused prefix across two requests, whatever their images: it is what a full
   * prefill of the new prompt would hold exactly when both mean the same rows in it.
   * Reuse itself compares tokens only, and all images have the same token.
   */
  lemma ReusedRowsExact(
    cells: seq<Cell>, oldPrompt: seq<Token>, oldRows: seq<Row>, generated: seq<Token>,
    prompt: seq<Token>, rows: seq<Row>)
    requires Left(cells, oldPrompt, oldRows, generated)
    requires |cells| <= |prompt| && Tokens(cells) == prompt[..|cells|]
    ensures cells == Annotate(prompt, rows)[..|cells|] <==> SameRows(oldPrompt, oldRows, prompt, rows, |cells|)
  {
    hide Annotate, Left, RowAt;
    var full := Annotate(prompt, rows)[..|cells|];
    forall i | 0 <= i < |cells|
      ensures cells[i] == full[i]
              <==> (prompt[i] == IMAGE_SOFT_TOKEN ==> RowAt(oldPrompt, oldRows, i) == RowAt(prompt, rows, i))
    {
      LeftAt(cells, oldPrompt, oldRows, generated, i);
      AnnotateAt(prompt, rows, i);
      assert cells[i].token == prompt[..|cells|][i];
    }
    assert cells == full <==> forall i :: 0 <= i < |cells| ==> cells[i] == full[i];
  }

  /** What two prompts share they count alike. */
  lemma SharedPrefix(
    cells: seq<Cell>, oldPrompt: seq<Token>, oldRows: seq<Row>, generated: seq<Token>, prompt: seq<Token>, i: nat)
    requires Left(cells, oldPrompt, oldRows, generated) && i < |cells| <= |prompt|
    requires Tokens(cells) == prompt[..|cells|]
    ensures i < |oldPrompt| ==> oldPrompt[..i] == prompt[..i]
  {
    if i < |oldPrompt| {
      forall k | 0 <= k < i ensures oldPrompt[k] == prompt[k] {
        assert cells[k] == Ideal(oldPrompt, oldRows, generated)[k];
        assert prompt[k] == prompt[..|cells|][k];
      }
    }
  }

  /** The old row at each image of a prefix is there, and is the new one. */
  predicate OldRowsKept(oldRows: seq<Row>, prompt: seq<Token>, rows: seq<Row>, n: nat)
    requires n <= |prompt|
  {
    forall i :: 0 <= i < n && prompt[i] == IMAGE_SOFT_TOKEN ==>
      var k := CountImages(prompt[..i]);
      k < |oldRows| && k < |rows| && oldRows[k] == rows[k]
  }

  /**
   * The same where the new request has a row for each of its images: the reused prefix is
   * right exactly when every image in it got a row at the time, and the rows the two
   * requests have for these images are the same.
   */
  lemma ReusedRowsAreRight(
    cells: seq<Cell>, oldPrompt: seq<Token>, oldRows: seq<Row>, generated: seq<Token>,
    prompt: seq<Token>, rows: seq<Row>)
    requires Left(cells, oldPrompt, oldRows, generated)
    requires |cells| <= |prompt| && Tokens(cells) == prompt[..|cells|]
    requires CountImages(prompt) <= |rows|
    ensures cells == Annotate(prompt, rows)[..|cells|]
            <==> AllRowed(cells) && OldRowsKept(oldRows, prompt, rows, |cells|)
  {
    hide Annotate, Left, CountImages;
    ReusedRowsExact(cells, oldPrompt, oldRows, generated, prompt, rows);
    forall i | 0 <= i < |cells| && prompt[i] == IMAGE_SOFT_TOKEN
      ensures cells[i].token == IMAGE_SOFT_TOKEN && CountImages(prompt[..i]) < |rows|
      ensures cells[i].row == RowAt(oldPrompt, oldRows, i)
      ensures i < |oldPrompt| ==> oldPrompt[..i] == prompt[..i]
    {
      assert cells[i].token == prompt[..|cells|][i];
      CountPrefix(prompt, i);
      LeftAt(cells, oldPrompt, oldRows, generated, i);
      SharedPrefix(cells, oldPrompt, oldRows, generated, prompt, i);
    }
    assert forall i :: 0 <= i < |cells| ==> cells[i].token == prompt[..|cells|][i] == prompt[i];
  }

  // ---- a conversation ---------------------------------------------------------------

  /** One request: its prompt, its images' rows, and what the library answered. */
  datatype Request = Request(prompt: seq<Token>, rows: seq<Row>, env: Env)

  /** Nothing is staged for a request without images. */
  function Stage(rows: seq<Row>): Option<seq<Row>> { if rows == [] then None else Some(rows) }

  /** What a request leaves in the cache is what its full prefill would have left. */
  ghost predicate Aligned(cells: seq<Cell>, r: Request) { Left(cells, r.prompt, r.rows, r.env.generated) }

  /** How much of a request's prompt is neither evaluated again nor lost. */
  function Reused(s: State, r: Request): nat {
    Min(r.env.held, Staged(r.prompt, Min(Rewound(s, r.prompt, r.env).1, |r.prompt|), Stage(r.rows), r.env).1)
  }

  function Converse(s: State, rs: seq<Request>): State
    decreases |rs|
  {
    if rs == [] then s
    else
      var r := rs[|rs| - 1];
      Run(Converse(s, rs[..|rs| - 1]), r.prompt, Stage(r.rows), r.env)
  }

  /** Cells before a suffix and its answer, cut at `held`: right exactly when those kept are. */
  lemma GeneratedIsRight(cells: seq<Cell>, r: Request, reuse: nat, staged: seq<Row>)
    requires reuse <= |r.prompt| && (reuse > 0 ==> |cells| == reuse)
    requires Annotate(r.prompt[reuse..], staged) == Annotate(r.prompt, r.rows)[reuse..]
    ensures var n := Min(r.env.held, reuse);
            Aligned(Generated(cells, r.prompt, reuse, staged, r.env), r)
            <==> (n > 0 ==> cells[..n] == Annotate(r.prompt, r.rows)[..n])
  {
    hide Annotate;
    var ideal := Annotate(r.prompt, r.rows);
    var base := if reuse == 0 then [] else cells;
    var full := Ideal(r.prompt, r.rows, r.env.generated);
    var all := Evaluated(base, r.prompt[reuse..], staged, r.env.generated);
    var n := Min(r.env.held, reuse);
    assert |all| == |full| && all[reuse..] == full[reuse..] by {
      assert all == base + (ideal[reuse..] + Plain(r.env.generated));
      assert full == ideal[..reuse] + (ideal[reuse..] + Plain(r.env.generated));
    }
    assert all[..reuse] == base && full[..n] == ideal[..n];
    PrefixByParts(all, full, Min(r.env.held, |all|), n);
  }

  /** Two sequences that agree from `m` on agree up to `h` exactly when they do up to where `m` cuts it. */
  lemma PrefixByParts(a: seq<Cell>, b: seq<Cell>, h: nat, n: nat)
    requires |a| == |b| && n <= h <= |a| && (n < h ==> a[n..] == b[n..])
    ensures a[..h] <= b <==> a[..n] == b[..n]
  {
    assert a[..h][..n] == a[..n] && b[..h][..n] == b[..n];
    if a[..n] == b[..n] && n < h {
      assert a == a[..n] + a[n..] && b == b[..n] + b[n..];
    }
  }

  lemma LeftPrefix(a: seq<Cell>, b: seq<Cell>, r: Request)
    requires a <= b && Aligned(b, r)
    ensures Aligned(a, r)
  {}

  /**
   * One call after another, whatever images either has and whatever the library answers:
   * the cache holds only what a full prefill would have put there exactly when the two
   * requests mean the same rows in the part that was reused.
   */
  lemma CallIsAlignedExactly(s: State, prior: Request, r: Request)
    requires Inv(s) && (s.record != [] ==> Aligned(s.cells, prior))
    ensures Reused(s, r) <= |r.prompt|
    ensures Aligned(Run(s, r.prompt, Stage(r.rows), r.env).cells, r)
            <==> SameRows(prior.prompt, prior.rows, r.prompt, r.rows, Reused(s, r))
  {
    hide Annotate, Rewound, Staged, Generated, Aligned, SameRows;
    var (cells, rewound) := Rewound(s, r.prompt, r.env);
    ReuseIsTrue(s, r.prompt, r.env);
    var reuse := Min(rewound, |r.prompt|);
    var (staged, reuse') := Staged(r.prompt, reuse, Stage(r.rows), r.env);
    StagingKeepsOrForfeits(r.prompt, reuse, Stage(r.rows), r.env);
    SuffixRowsAreRight(r.prompt, reuse, Stage(r.rows), r.env);
    GeneratedIsRight(cells, r, reuse', staged);
    var n := Min(r.env.held, reuse');
    if n > 0 {
      NoRecordNoReuse(s, r.prompt, r.env);
      KeptIsRight(cells, s.cells, prior, r, n);
    } else {
      NoRows(prior, r);
    }
  }

  lemma NoRows(prior: Request, r: Request)
    ensures SameRows(prior.prompt, prior.rows, r.prompt, r.rows, 0)
  {}

  lemma KeptIsRight(cells: seq<Cell>, held: seq<Cell>, prior: Request, r: Request, n: nat)
    requires cells <= held && Aligned(held, prior) && n <= |cells| <= |r.prompt|
    requires Tokens(cells) == r.prompt[..|cells|]
    ensures cells[..n] == Annotate(r.prompt, r.rows)[..n]
            <==> SameRows(prior.prompt, prior.rows, r.prompt, r.rows, n)
  {
    hide Annotate, SameRows;
    LeftPrefix(cells[..n], held, prior);
    TokensPrefix(cells[..n], cells);
    assert Tokens(cells[..n]) == r.prompt[..n];
    ReusedRowsExact(cells[..n], prior.prompt, prior.rows, prior.env.generated, r.prompt, r.rows);
  }

  lemma NoRecordNoReuse(s: State, prompt: seq<Token>, env: Env)
    ensures s.record == [] ==> Rewound(s, prompt, env).1 == 0
  {}

  /** Two requests agree on the images of all that reuse could ever take for shared. */
  predicate Agreeing(prior: Request, r: Request) {
    SameRows(prior.prompt, prior.rows, r.prompt, r.rows,
             CommonPrefixLen(prior.prompt + prior.env.generated, r.prompt))
  }

  lemma AgreesWithItself(r: Request)
    ensures Agreeing(r, r)
  {}

  /** A request whose answer holds no image marker, and whose rows suffice for its images. */
  predicate WellFormed(r: Request) { CountImages(r.prompt) <= |r.rows| && CountImages(r.env.generated) == 0 }

  /** An image list that extends the one before it agrees with it. */
  lemma GrowingListsAgree(prior: Request, r: Request)
    requires WellFormed(prior) && prior.rows <= r.rows
    ensures Agreeing(prior, r)
  {
    hide CountImages;
    var full := prior.prompt + prior.env.generated;
    var n := CommonPrefixLen(full, r.prompt);
    forall i | 0 <= i < n && r.prompt[i] == IMAGE_SOFT_TOKEN
      ensures RowAt(prior.prompt, prior.rows, i) == RowAt(r.prompt, r.rows, i)
    {
      assert full[..n][i] == r.prompt[..n][i];
      if i < |prior.prompt| {
        CountPrefix(prior.prompt, i);
        assert prior.prompt[..i] == full[..n][..i] == r.prompt[..n][..i] == r.prompt[..i];
      } else {
        CountPrefix(prior.env.generated, i - |prior.prompt|);
      }
    }
  }

  /** What is reused is shared by the two requests. */
  lemma ReusedIsShared(s: State, prior: Request, r: Request)
    requires Inv(s) && s.record != [] && Aligned(s.cells, prior)
    ensures Rewound(s, r.prompt, r.env).1 <= CommonPrefixLen(prior.prompt + prior.env.generated, r.prompt)
  {
    hide Rewound, Annotate, Plain;
    var (cells, n) := Rewound(s, r.prompt, r.env);
    var full := Ideal(prior.prompt, prior.rows, prior.env.generated);
    ReuseIsTrue(s, r.prompt, r.env);
    if n > 0 {
      TokensPrefix(cells, full);
      IdealTokens(prior);
      CommonPrefixAtLeast(prior.prompt + prior.env.generated, r.prompt, n);
    }
  }

  lemma IdealTokens(r: Request)
    ensures Tokens(Ideal(r.prompt, r.rows, r.env.generated)) == r.prompt + r.env.generated
  {}

  /** After a request the previous one agrees with, the cache holds what it should. */
  lemma RunLeavesIdeal(s: State, prior: Request, r: Request)
    requires Inv(s) && Agreeing(prior, r) && (s.record != [] ==> Aligned(s.cells, prior))
    ensures Aligned(Run(s, r.prompt, Stage(r.rows), r.env).cells, r)
  {
    hide Run, Aligned, Rewound, Staged, RowAt, CommonPrefixLen;
    CallIsAlignedExactly(s, prior, r);
    StagingKeepsOrForfeits(r.prompt, Min(Rewound(s, r.prompt, r.env).1, |r.prompt|), Stage(r.rows), r.env);
    NoRecordNoReuse(s, r.prompt, r.env);
    if s.record != [] { ReusedIsShared(s, prior, r); }
  }

  /**
   * Over a whole conversation in which each request agrees with the one before it, with any
   * calls refused, failed or cut short on the way and any counts of rows, the cache after
   * each request holds only cells that a full prefill of it, and its answer, would have put
   * there.
   */
  lemma {:induction false} ConversationIsAligned(s: State, rs: seq<Request>)
    requires s.record == [] && s.checkpoint.None? && rs != []
    requires forall i :: 0 < i < |rs| ==> Agreeing(rs[i - 1], rs[i])
    ensures Inv(Converse(s, rs)) && Aligned(Converse(s, rs).cells, rs[|rs| - 1])
    decreases |rs|
  {
    hide Run, Aligned, Agreeing;
    var init, last := rs[..|rs| - 1], rs[|rs| - 1];
    if init == [] {
      AgreesWithItself(last);
      RunLeavesIdeal(s, last, last);
      RunKeepsInv(s, last.prompt, Stage(last.rows), last.env);
    } else {
      ConversationIsAligned(s, init);
      var before := Converse(s, init);
      assert init[|init| - 1] == rs[|rs| - 2];
      RunLeavesIdeal(before, init[|init| - 1], last);
      RunKeepsInv(before, last.prompt, Stage(last.rows), last.env);
    }
  }

  const PICTURE_ONE := Request([IMAGE_SOFT_TOKEN, 7], [1], Env(Refused, false, false, [], 2, false))
  const PICTURE_TWO := Request([IMAGE_SOFT_TOKEN, 8], [2], Env(Done(1), false, false, [], 2, false))

  /** Another picture in the same framing is answered from the first one's. */
  lemma DifferentPictureIsReused()
    ensures var s := Converse(State([], [], None, true, false), [PICTURE_ONE, PICTURE_TWO]);
            && s.cells == [Cell(IMAGE_SOFT_TOKEN, Some(1)), Cell(8, None)]
            && !Aligned(s.cells, PICTURE_TWO)
  {
    var start := State([], [], None, true, false);
    var one := Run(start, PICTURE_ONE.prompt, Stage(PICTURE_ONE.rows), PICTURE_ONE.env);
    FirstPicture(start);
    SecondPicture(one);
    assert [PICTURE_ONE, PICTURE_TWO][..1] == [PICTURE_ONE] && [PICTURE_ONE][..0] == [];
    assert Converse(start, [PICTURE_ONE]) == one;
    AnnotateAt(PICTURE_TWO.prompt, PICTURE_TWO.rows, 0);
    assert Ideal(PICTURE_TWO.prompt, PICTURE_TWO.rows, [])[0] == Cell(IMAGE_SOFT_TOKEN, Some(2));
  }

  lemma CountOne(t: Token)
    requires t != IMAGE_SOFT_TOKEN
    ensures CountImages([IMAGE_SOFT_TOKEN, t]) == CountImages([IMAGE_SOFT_TOKEN]) == 1 && CountImages([t]) == 0
  {
    assert [IMAGE_SOFT_TOKEN, t][..1] == [IMAGE_SOFT_TOKEN] && [IMAGE_SOFT_TOKEN][..0] == [] && [t][..0] == [];
  }

  lemma FirstPicture(s: State)
    requires s == State([], [], None, true, false)
    ensures Run(s, PICTURE_ONE.prompt, Some([1]), PICTURE_ONE.env)
            == State([Cell(IMAGE_SOFT_TOKEN, Some(1)), Cell(7, None)], [IMAGE_SOFT_TOKEN, 7], None, true, false)
  {
    CountOne(7);
    var prompt := PICTURE_ONE.prompt;
    assert prompt[..0] == [] && prompt[0..] == prompt && prompt[..1] == [IMAGE_SOFT_TOKEN];
    assert Staged(prompt, 0, Some([1]), PICTURE_ONE.env) == ([1], 0) by { assert [1][0..1] == [1]; }
    assert Annotate(prompt, [1]) == [Cell(IMAGE_SOFT_TOKEN, Some(1)), Cell(7, None)];
  }

  lemma SecondPicture(s: State)
    requires s == State([Cell(IMAGE_SOFT_TOKEN, Some(1)), Cell(7, None)], [IMAGE_SOFT_TOKEN, 7], None, true, false)
    ensures Run(s, PICTURE_TWO.prompt, Some([2]), PICTURE_TWO.env).cells
            == [Cell(IMAGE_SOFT_TOKEN, Some(1)), Cell(8, None)]
  {
    CountOne(8);
    var prompt := PICTURE_TWO.prompt;
    assert prompt[..1] == [IMAGE_SOFT_TOKEN] && prompt[1..] == [8];
    CommonPrefixAtLeast(s.record, prompt, 1);
    assert ReusablePrefix(s.record, prompt) == 1;
    assert RewoundTo(s, 1, 1) == [Cell(IMAGE_SOFT_TOKEN, Some(1))];
    assert Rewound(s, prompt, PICTURE_TWO.env) == ([Cell(IMAGE_SOFT_TOKEN, Some(1))], 1);
    assert Staged(prompt, 1, Some([2]), PICTURE_TWO.env) == ([], 1);
    assert Annotate([8], []) == [Cell(8, None)];
  }

  const FRAMED := Request([IMAGE_SOFT_TOKEN, 7], [1], Env(Refused, false, false, [], 2, true))
  const REFRAMED := Request([IMAGE_SOFT_TOKEN, 7, 9], [2], Env(Done(2), false, false, [], 3, false))

  /** The same where the cache goes back only to a checkpoint, as windowed caches do. */
  lemma DifferentPictureIsRestored()
    ensures var s := Converse(State([], [], None, true, true), [FRAMED, REFRAMED]);
            && s.cells == [Cell(IMAGE_SOFT_TOKEN, Some(1)), Cell(7, None), Cell(9, None)]
            && !Aligned(s.cells, REFRAMED)
  {
    var start := State([], [], None, true, true);
    var one := Run(start, FRAMED.prompt, Stage(FRAMED.rows), FRAMED.env);
    FramedPicture(start);
    ReframedPicture(one);
    assert [FRAMED, REFRAMED][..1] == [FRAMED] && [FRAMED][..0] == [];
    assert Converse(start, [FRAMED]) == one;
    AnnotateAt(REFRAMED.prompt, REFRAMED.rows, 0);
    assert Ideal(REFRAMED.prompt, REFRAMED.rows, [])[0] == Cell(IMAGE_SOFT_TOKEN, Some(2));
  }

  lemma FramedPicture(s: State)
    requires s == State([], [], None, true, true)
    ensures var cells := [Cell(IMAGE_SOFT_TOKEN, Some(1)), Cell(7, None)];
            Run(s, FRAMED.prompt, Some([1]), FRAMED.env) == State(cells, [IMAGE_SOFT_TOKEN, 7], Some(cells), true, true)
  {
    CountOne(7);
    var prompt := FRAMED.prompt;
    assert prompt[..0] == [] && prompt[0..] == prompt && prompt[..1] == [IMAGE_SOFT_TOKEN];
    assert Staged(prompt, 0, Some([1]), FRAMED.env) == ([1], 0) by { assert [1][0..1] == [1]; }
    var after := [Cell(IMAGE_SOFT_TOKEN, Some(1)), Cell(7, None)];
    assert Annotate(prompt, [1]) == after;
    assert Generated([], prompt, 0, [1], FRAMED.env) == after && after[..2] == after;
  }

  lemma ReframedPicture(s: State)
    requires var cells := [Cell(IMAGE_SOFT_TOKEN, Some(1)), Cell(7, None)];
             s == State(cells, [IMAGE_SOFT_TOKEN, 7], Some(cells), true, true)
    ensures Run(s, REFRAMED.prompt, Some([2]), REFRAMED.env).cells
            == [Cell(IMAGE_SOFT_TOKEN, Some(1)), Cell(7, None), Cell(9, None)]
  {
    var prompt := REFRAMED.prompt;
    CountOne(7);
    assert prompt[..2] == [IMAGE_SOFT_TOKEN, 7] && prompt[2..] == [9] && [9][..0] == [];
    CommonPrefixAtLeast(s.record, prompt, 2);
    assert ReusablePrefix(s.record, prompt) == 2;
    assert RewoundTo(s, 2, 2) == s.cells;
    assert Rewound(s, prompt, REFRAMED.env) == (s.cells, 2);
    CountConcat(prompt[..2], prompt[2..]);
    assert prompt == prompt[..2] + prompt[2..];
    assert Staged(prompt, 2, Some([2]), REFRAMED.env) == ([], 2);
    assert Annotate([9], []) == [Cell(9, None)];
  }

  // ---- injection --------------------------------------------------------------------

  /** The rows some cells hold, in order. */
  function RowsIn(cells: seq<Cell>): seq<Row> {
    if cells == [] then []
    else
      var last := cells[|cells| - 1];
      RowsIn(cells[..|cells| - 1]) + if last.row.Some? then [last.row.value] else []
  }

  /** A prefill lands every row it can, once, in order, and only on images. */
  lemma {:induction false} InjectedInOrder(ts: seq<Token>, rows: seq<Row>)
    ensures RowsIn(Annotate(ts, rows)) == rows[..Min(CountImages(ts), |rows|)]
    ensures forall i :: 0 <= i < |ts| && Annotate(ts, rows)[i].row.Some? ==> ts[i] == IMAGE_SOFT_TOKEN
  {
    if ts != [] {
      var init := ts[..|ts| - 1];
      InjectedInOrder(init, rows);
      AnnotateInit(ts, rows);
    }
  }

  lemma AnnotateInit(ts: seq<Token>, rows: seq<Row>)
    requires ts != []
    ensures Annotate(ts, rows)[..|ts| - 1] == Annotate(ts[..|ts| - 1], rows)
  {
    hide CountImages;
    var init := ts[..|ts| - 1];
    forall i | 0 <= i < |init| ensures Annotate(ts, rows)[i] == Annotate(init, rows)[i] {
      assert init[..i] == ts[..i];
    }
  }
}
