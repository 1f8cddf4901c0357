/** A sweep is all or nothing, and each file's fate is its own. */
module SweepProofs {
  import opened Common
  import opened Text
  import opened Sweep

  // ---- one edit ---------------------------------------------------------------------

  /**
   * An edit that goes through does to every file what it would do to that file alone, and
   * marks as pending exactly the files it hit.
   */
  lemma {:induction false} TargetsAreIndependent(disk: Disk, spec: Spec, w: Work, ts: seq<Path>, p: Path)
    requires ApplyTargets(disk, spec, w, ts).Some?
    ensures var (w', total) := ApplyTargets(disk, spec, w, ts).value;
            var alone := FileTargets(Current(disk, w, p), spec, ts, p);
            && alone.Some? && alone.value.0 == Current(disk, w', p)
            && alone.value.1 <= total
            && (p in w'.pending <==> p in w.pending || alone.value.1 > 0)
    decreases |ts|
  {
    hide FileStep;
    if ts != [] {
      var init, last := ts[..|ts| - 1], ts[|ts| - 1];
      TargetsAreIndependent(disk, spec, w, init, p);
      NoHitNoStep(Current(disk, ApplyTargets(disk, spec, w, init).value.0, last), spec);
    }
  }

  /** An edit that hits nothing in a file leaves it as it was. */
  lemma NoHitNoStep(text: string, spec: Spec)
    ensures FileStep(text, spec).Some? && FileStep(text, spec).value.1 == 0 ==> FileStep(text, spec).value.0 == text
  {}

  /** And one that is refused is refused for some one file. */
  lemma {:induction false} RefusedSomewhere(disk: Disk, spec: Spec, w: Work, ts: seq<Path>) returns (p: Path)
    requires ApplyTargets(disk, spec, w, ts).None?
    ensures FileTargets(Current(disk, w, p), spec, ts, p).None?
    decreases |ts|
  {
    hide FileStep;
    var init := ts[..|ts| - 1];
    if ApplyTargets(disk, spec, w, init).None? {
      p := RefusedSomewhere(disk, spec, w, init);
    } else {
      p := ts[|ts| - 1];
      TargetsAreIndependent(disk, spec, w, init, p);
    }
  }

  /** An edit with any hit hits some file. */
  lemma {:induction false} HitsSomewhere(disk: Disk, spec: Spec, w: Work, ts: seq<Path>) returns (p: Path)
    requires ApplyTargets(disk, spec, w, ts).Some? && ApplyTargets(disk, spec, w, ts).value.1 > 0
    ensures FileTargets(Current(disk, w, p), spec, ts, p).Some?
    ensures FileTargets(Current(disk, w, p), spec, ts, p).value.1 > 0
    decreases |ts|
  {
    hide FileStep;
    var init := ts[..|ts| - 1];
    if ApplyTargets(disk, spec, w, init).value.1 > 0 {
      p := HitsSomewhere(disk, spec, w, init);
      TargetsAreIndependent(disk, spec, w, ts, p);
    } else {
      p := ts[|ts| - 1];
      TargetsAreIndependent(disk, spec, w, init, p);
    }
  }

  // ---- the whole plan ---------------------------------------------------------------

  /**
   * A plan that goes through gives every file the composition, in order, of the edits that
   * hit it, as if there were no other file.
   */
  lemma {:induction false} PlanIsPerFile(disk: Disk, specs: seq<Spec>, p: Path)
    requires Plan(disk, specs).Some?
    ensures FileAfter(disk(p), specs, p) == Some(Current(disk, Plan(disk, specs).value, p))
    decreases |specs|
  {
    if specs != [] {
      var init, spec := specs[..|specs| - 1], specs[|specs| - 1];
      PlanIsPerFile(disk, init, p);
      TargetsAreIndependent(disk, spec, Plan(disk, init).value, spec.targets.value, p);
    }
  }

  /** An edit no one file refuses, and that hits some file. */
  ghost predicate GoesThrough(disk: Disk, specs: seq<Spec>) {
    && (forall p: Path :: FileAfter(disk(p), specs, p).Some?)
    && (specs != [] ==> exists p: Path :: LastHits(disk(p), specs, p) > 0)
  }

  /**
   * When a plan goes through: exactly when, edit by edit, no single file refuses its
   * composition so far and the edit hits at least one.
   */
  lemma {:induction false} PlanGoesThroughExactly(disk: Disk, specs: seq<Spec>)
    ensures Plan(disk, specs).Some? <==> forall k :: 0 <= k <= |specs| ==> GoesThrough(disk, specs[..k])
    decreases |specs|
  {
    hide GoesThrough, Plan;
    assert specs[..|specs|] == specs;
    if specs == [] {
      EmptyGoesThrough(disk);
    } else {
      var init := specs[..|specs| - 1];
      PlanGoesThroughExactly(disk, init);
      if Plan(disk, init).Some? {
        LastEditExactly(disk, specs);
        forall k | 0 <= k <= |init| ensures GoesThrough(disk, specs[..k]) {
          assert init[..k] == specs[..k];
        }
      } else {
        PlanOfInit(disk, specs);
        var k :| 0 <= k <= |init| && !GoesThrough(disk, init[..k]);
        assert init[..k] == specs[..k];
      }
    }
  }

  lemma PlanOfInit(disk: Disk, specs: seq<Spec>)
    requires specs != [] && Plan(disk, specs[..|specs| - 1]).None?
    ensures Plan(disk, specs).None?
  {}

  lemma EmptyGoesThrough(disk: Disk)
    ensures GoesThrough(disk, []) && Plan(disk, []).Some?
  {}

  lemma LastEditExactly(disk: Disk, specs: seq<Spec>)
    requires specs != [] && Plan(disk, specs[..|specs| - 1]).Some?
    ensures Plan(disk, specs).Some? <==> GoesThrough(disk, specs)
  {
    hide ApplyTargets, FileTargets;
    var init, spec := specs[..|specs| - 1], specs[|specs| - 1];
    var w := Plan(disk, init).value;
    forall p: Path ensures FileAfter(disk(p), init, p) == Some(Current(disk, w, p)) {
      PlanIsPerFile(disk, init, p);
    }
    if Plan(disk, specs).Some? {
      forall p: Path ensures FileAfter(disk(p), specs, p).Some? { PlanIsPerFile(disk, specs, p); }
      var p := HitsSomewhere(disk, spec, w, spec.targets.value);
      assert LastHits(disk(p), specs, p) > 0;
    } else if spec.count.None? || spec.targets.None? {
      assert FileAfter(disk(""), specs, "").None?;
    } else if ApplyTargets(disk, spec, w, spec.targets.value).None? {
      var p := RefusedSomewhere(disk, spec, w, spec.targets.value);
      assert FileAfter(disk(p), specs, p).None?;
    } else {
      forall p: Path ensures LastHits(disk(p), specs, p) == 0 {
        TargetsAreIndependent(disk, spec, w, spec.targets.value, p);
      }
    }
  }

  /**
   * All or nothing: either the plan fails, or it is a dry run, and every file is as it
   * was; or every file, planned for or not, is the composition of the edits that hit it.
   */
  lemma {:induction false} SweepIsAllOrNothing(disk: Disk, specs: seq<Spec>, dryRun: bool)
    ensures var after := Written(disk, Plan(disk, specs), dryRun);
            if Plan(disk, specs).None? || dryRun then forall p: Path :: after(p) == disk(p)
            else forall p: Path :: Some(after(p)) == FileAfter(disk(p), specs, p)
  {
    if Plan(disk, specs).Some? && !dryRun {
      forall p: Path ensures FileAfter(disk(p), specs, p) == Some(Current(disk, Plan(disk, specs).value, p)) {
        PlanIsPerFile(disk, specs, p);
      }
    }
  }

  // ---- lengths ----------------------------------------------------------------------

  lemma Distribute(a: int, b: int, g: int)
    ensures (a + b) * g == a * g + b * g
  {}

  /** Replacing changes a text's length by as much as one place does, for each place. */
  lemma {:induction false} ReplaceLength(s: string, needle: string, put: string, growth: int)
    requires needle != [] && growth == |put| - |needle|
    ensures |ReplaceAll(s, needle, put)| == |s| + Count(s, needle) * growth
    decreases |s|
  {
    hide Find;
    match Find(s, needle)
    case None =>
    case Some(k) =>
      var rest := s[k + |needle|..];
      ReplaceLength(rest, needle, put, growth);
      Distribute(1, Count(rest, needle), growth);
  }

  /** How much longer a literal edit makes a text, a place. */
  function Growth(spec: Spec): int {
    if spec.how.Literal? && spec.replace.Some? then |spec.replace.value| - |spec.how.needle| else 0
  }

  lemma StepLength(text: string, spec: Spec)
    requires spec.how.Literal? && FileStep(text, spec).Some?
    ensures |FileStep(text, spec).value.0| == |text| + FileStep(text, spec).value.1 * Growth(spec)
  {
    hide ReplaceAll, Count;
    ReplaceLength(text, spec.how.needle, spec.replace.value, Growth(spec));
  }

  lemma {:induction false} TargetsLength(text: string, spec: Spec, ts: seq<Path>, p: Path)
    requires spec.how.Literal? && FileTargets(text, spec, ts, p).Some?
    ensures var (after, n) := FileTargets(text, spec, ts, p).value;
            |after| == |text| + n * Growth(spec)
    decreases |ts|
  {
    hide FileStep, Growth;
    if ts != [] {
      var init := ts[..|ts| - 1];
      TargetsLength(text, spec, init, p);
      var (text1, total) := FileTargets(text, spec, init, p).value;
      if ts[|ts| - 1] == p {
        StepLength(text1, spec);
        Distribute(total, FileStep(text1, spec).value.1, Growth(spec));
      }
    }
  }

  /** The length change edits promise to one file: the sum of hits times growth. */
  function TotalGrowth(text: string, specs: seq<Spec>, p: Path): int
    decreases |specs|
  {
    if specs == [] then 0
    else TotalGrowth(text, specs[..|specs| - 1], p) + LastHits(text, specs, p) * Growth(specs[|specs| - 1])
  }

  /** For literal edits a file grows by exactly that. */
  lemma {:induction false} FileGrowsByHits(text: string, specs: seq<Spec>, p: Path)
    requires FileAfter(text, specs, p).Some?
    requires forall i :: 0 <= i < |specs| ==> specs[i].how.Literal?
    ensures |FileAfter(text, specs, p).value| == |text| + TotalGrowth(text, specs, p)
    decreases |specs|
  {
    hide FileTargets, Growth;
    if specs != [] {
      var init, spec := specs[..|specs| - 1], specs[|specs| - 1];
      FileGrowsByHits(text, init, p);
      TargetsLength(FileAfter(text, init, p).value, spec, spec.targets.value, p);
    }
  }

  // ---- what one edit does -----------------------------------------------------------

  function Join(parts: seq<string>, sep: string): string {
    if parts == [] then [] else if |parts| == 1 then parts[0] else parts[0] + sep + Join(parts[1..], sep)
  }

  /** Cut up at the leftmost places a needle is found, and at no others. */
  ghost predicate CutAtNeedle(parts: seq<string>, needle: string) {
    && parts != [] && Find(parts[|parts| - 1], needle).None?
    && forall i :: 0 <= i < |parts| - 1 ==> Find(parts[i] + needle, needle) == Some(|parts[i]|)
  }

  /** The parts a text is cut into at a needle; one more than there are cuts. */
  ghost predicate IsCut(parts: seq<string>, s: string, needle: string)
    requires needle != []
  {
    CutAtNeedle(parts, needle) && |parts| == Count(s, needle) + 1 && s == Join(parts, needle)
  }

  /**
   * What replacing does: the text is cut up at the needle, leftmost first, and put together
   * again with the replacement; and the places counted are the cuts.
   */
  lemma {:induction false} ReplaceIsRejoin(s: string, needle: string, put: string)
    requires needle != []
    ensures exists parts :: IsCut(parts, s, needle) && ReplaceAll(s, needle, put) == Join(parts, put)
    decreases |s|
  {
    hide Find, CutAtNeedle, Join;
    match Find(s, needle)
    case None =>
      NotCut(s, needle, put);
      assert IsCut([s], s, needle);
    case Some(k) =>
      var rest := s[k + |needle|..];
      ReplaceIsRejoin(rest, needle, put);
      var others :| IsCut(others, rest, needle) && ReplaceAll(rest, needle, put) == Join(others, put);
      FoundIsThere(s, needle, k);
      OneMorePart(s[..k], others, needle);
      JoinOneMore(s[..k], others, needle);
      JoinOneMore(s[..k], others, put);
      assert IsCut([s[..k]] + others, s, needle);
  }

  lemma NotCut(s: string, needle: string, put: string)
    requires Find(s, needle).None?
    ensures CutAtNeedle([s], needle) && Join([s], needle) == s && Join([s], put) == s
  {}

  lemma OneMorePart(first: string, others: seq<string>, needle: string)
    requires CutAtNeedle(others, needle) && Find(first + needle, needle) == Some(|first|)
    ensures CutAtNeedle([first] + others, needle) && others != []
  {
    hide Find;
  }

  lemma JoinOneMore(first: string, others: seq<string>, sep: string)
    requires others != []
    ensures Join([first] + others, sep) == first + sep + Join(others, sep)
  {
    assert ([first] + others)[1..] == others;
  }

  /** What is found is there, and no earlier. */
  lemma FoundIsThere(s: string, needle: string, k: nat)
    requires needle != [] && Find(s, needle) == Some(k)
    ensures s == s[..k] + needle + s[k + |needle|..] && Find(s[..k] + needle, needle) == Some(k)
  {
    hide Find;
    FoundSlice(s, needle, k);
    CutAround(s, needle, k);
    FindLocal(s, s[..k + |needle|], needle, k);
  }

  lemma CutAround(s: string, needle: string, k: nat)
    requires k + |needle| <= |s| && s[k..k + |needle|] == needle
    ensures s[..k + |needle|] == s[..k] + needle && s == s[..k + |needle|] + s[k + |needle|..]
    ensures Agree(s, s[..k + |needle|], k + |needle|)
  {
    assert forall i :: k <= i < k + |needle| ==> s[i] == s[k..k + |needle|][i - k];
  }

  lemma {:induction false} FoundSlice(s: string, needle: string, k: nat)
    requires Find(s, needle) == Some(k)
    ensures k + |needle| <= |s| && s[k..k + |needle|] == needle
  {
    if k > 0 {
      FoundSlice(s[1..], needle, k - 1);
      TailSlice(s, 1, k - 1, k - 1 + |needle|);
    }
  }

  /**
   * When one file passes a literal edit: when the edit hits it as often as it says, or not
   * at all where its targets are a pattern; a malformed edit passes nowhere.
   */
  lemma VisitExact(text: string, spec: Spec)
    requires spec.how.Literal? && spec.count.Some?
    ensures FileStep(text, spec).Some? <==>
              && spec.how.needle != [] && spec.replace.Some?
              && var n := Count(text, spec.how.needle);
                 if n == 0 then spec.byGlob else spec.count.value == OneOrMore || spec.count.value == Exactly(n)
    ensures FileStep(text, spec).Some? && Count(text, spec.how.needle) > 0 ==>
              FileStep(text, spec).value
              == (ReplaceAll(text, spec.how.needle, spec.replace.value), Count(text, spec.how.needle))
  {
    hide ReplaceAll, Count;
  }

  /** The same for a regular expression, whatever it counts and puts, if it compiles. */
  lemma RegexVisitExact(text: string, spec: Spec)
    requires spec.how.Regex? && spec.count.Some?
    ensures var found := spec.how.subn(text);
            && (FileStep(text, spec).Some? <==>
                  && found.Some? && spec.replace.Some?
                  && var n := found.value.1;
                     if n == 0 then spec.byGlob else spec.count.value == OneOrMore || spec.count.value == Exactly(n))
            && (FileStep(text, spec).Some? && found.value.1 > 0 ==> FileStep(text, spec) == found)
  {}

  /** An edit that says not how to find, or says it twice, or not what to put, passes nowhere. */
  lemma MalformedPassesNowhere(text: string, spec: Spec)
    requires spec.how.Both? || spec.how.Neither? || spec.replace.None? || spec.how == Literal("")
    ensures FileStep(text, spec).None?
  {}

  lemma {:induction false} PrefixOfTargets(text: string, spec: Spec, ts: seq<Path>, p: Path, j: nat)
    requires j <= |ts| && FileTargets(text, spec, ts, p).Some?
    ensures FileTargets(text, spec, ts[..j], p).Some?
    decreases |ts|
  {
    hide FileStep;
    if j == |ts| {
      assert ts[..j] == ts;
    } else {
      PrefixOfTargets(text, spec, ts[..|ts| - 1], p, j);
      assert ts[..|ts| - 1][..j] == ts[..j];
    }
  }

  /** Every visit to a file of a plan that goes through passes its edit. */
  lemma VisitsPass(disk: Disk, specs: seq<Spec>, k: nat, j: nat)
    requires Plan(disk, specs).Some? && k < |specs| && specs[k].targets.Some? && j < |specs[k].targets.value|
    ensures var ts := specs[k].targets.value; var p := ts[j];
            && FileAfter(disk(p), specs[..k], p).Some?
            && var before := FileTargets(FileAfter(disk(p), specs[..k], p).value, specs[k], ts[..j], p);
               before.Some? && FileStep(before.value.0, specs[k]).Some? && specs[k].count.Some?
  {
    hide FileStep, Plan;
    var ts := specs[k].targets.value;
    var p := ts[j];
    if Plan(disk, specs[..k + 1]).None? { FailsForGood(disk, specs, k + 1); }
    PlanIsPerFile(disk, specs[..k + 1], p);
    assert specs[..k + 1][..k] == specs[..k] && specs[..k + 1][k] == specs[k];
    var text := FileAfter(disk(p), specs[..k], p).value;
    PrefixOfTargets(text, specs[k], ts, p, j + 1);
    PrefixOfTargets(text, specs[k], ts, p, j);
    assert ts[..j + 1][..j] == ts[..j] && ts[..j + 1][j] == p;
  }

  /**
   * In a plan that goes through every literal edit hits each file it names as often as it
   * says, counted on the text as the edits before left it, or, where its targets are a
   * pattern, not at all.
   */
  lemma CountsAreMet(disk: Disk, specs: seq<Spec>, k: nat, j: nat)
    requires Plan(disk, specs).Some? && k < |specs| && specs[k].targets.Some? && j < |specs[k].targets.value|
    requires specs[k].how.Literal?
    ensures var ts := specs[k].targets.value; var p := ts[j];
            && specs[k].how.needle != [] && specs[k].count.Some? && FileAfter(disk(p), specs[..k], p).Some?
            && var before := FileTargets(FileAfter(disk(p), specs[..k], p).value, specs[k], ts[..j], p);
               && before.Some?
               && var n := Count(before.value.0, specs[k].how.needle);
                  if n == 0 then specs[k].byGlob
                  else specs[k].count.value == OneOrMore || specs[k].count.value == Exactly(n)
  {
    hide FileStep, Plan, FileAfter, FileTargets, Count;
    VisitsPass(disk, specs, k, j);
    var ts := specs[k].targets.value;
    var before := FileTargets(FileAfter(disk(ts[j]), specs[..k], ts[j]).value, specs[k], ts[..j], ts[j]);
    VisitExact(before.value.0, specs[k]);
  }
}
