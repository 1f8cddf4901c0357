/**
 * `sweep.py`: every change is worked out, in memory, before any file is written. The file
 * system is a function from paths to texts, a regex edit the function `re.subn` computes.
 */
module Sweep {
  import opened Common
  import opened Text

  type Path = string
  type Disk = Path -> string

  datatype Expected = OneOrMore | Exactly(n: nat)

  /** How an edit finds its places; `find` and `regex` together, or neither, are refused. */
  datatype How = Literal(needle: string) | Regex(subn: string -> Option<(string, nat)>) | Neither | Both

  /** One edit; a field that does not make sense, or targets that are refused, are `None`. */
  datatype Spec = Spec(
    byGlob: bool, targets: Option<seq<Path>>, how: How, replace: Option<string>, count: Option<Expected>)

  /** `str.replace`: left to right, without overlaps. */
  function ReplaceAll(s: string, needle: string, put: string): string
    requires needle != []
    decreases |s|
  {
    match Find(s, needle)
    case None => s
    case Some(k) => s[..k] + put + ReplaceAll(s[k + |needle|..], needle, put)
  }

  /** `str.count`. */
  function Count(s: string, needle: string): nat
    requires needle != []
    decreases |s|
  {
    match Find(s, needle)
    case None => 0
    case Some(k) => 1 + Count(s[k + |needle|..], needle)
  }

  /** `_apply_one`: the rewritten text and how many places changed, or a refusal. */
  function ApplyOne(text: string, spec: Spec): Option<(string, nat)> {
    if spec.how.Both? || spec.replace.None? then None
    else
      match spec.how
      case Regex(subn) => subn(text)
      case Literal(needle) =>
        if needle == [] then None
        else Some((ReplaceAll(text, needle, spec.replace.value), Count(text, needle)))
      case _ => None
  }

  /** One file under one edit: its text afterwards and the hits, or a refusal of the plan. */
  function FileStep(text: string, spec: Spec): Option<(string, nat)> {
    match ApplyOne(text, spec)
    case None => None
    case Some((after, n)) =>
      if n == 0 then if spec.byGlob then Some((text, 0)) else None
      else if spec.count.None? || (spec.count.value.Exactly? && n != spec.count.value.n) then None
      else Some((after, n))
  }

  // ---- the plan, as the source builds it --------------------------------------------

  /** The texts changed so far, and the order in which they first were. */
  datatype Work = Work(order: seq<Path>, pending: map<Path, string>)

  function Current(disk: Disk, w: Work, p: Path): string {
    if p in w.pending then w.pending[p] else disk(p)
  }

  function ApplyTarget(disk: Disk, spec: Spec, w: Work, p: Path): Option<(Work, nat)> {
    match FileStep(Current(disk, w, p), spec)
    case None => None
    case Some((after, n)) =>
      if n == 0 then Some((w, 0))
      else Some((Work(if p in w.pending then w.order else w.order + [p], w.pending[p := after]), n))
  }

  /** One edit over its targets, and how many places it changed in all. */
  function ApplyTargets(disk: Disk, spec: Spec, w: Work, ts: seq<Path>): Option<(Work, nat)>
    decreases |ts|
  {
    if ts == [] then Some((w, 0))
    else
      match ApplyTargets(disk, spec, w, ts[..|ts| - 1])
      case None => None
      case Some((w1, total)) =>
        match ApplyTarget(disk, spec, w1, ts[|ts| - 1])
        case None => None
        case Some((w2, n)) => Some((w2, total + n))
  }

  function ApplySpec(disk: Disk, spec: Spec, w: Work): Option<Work> {
    if spec.count.None? || spec.targets.None? then None
    else
      match ApplyTargets(disk, spec, w, spec.targets.value)
      case None => None
      case Some((w', total)) => if total == 0 then None else Some(w')
  }

  /** `plan`. */
  function Plan(disk: Disk, specs: seq<Spec>): Option<Work>
    decreases |specs|
  {
    if specs == [] then Some(Work([], map[]))
    else
      match Plan(disk, specs[..|specs| - 1])
      case None => None
      case Some(w) => ApplySpec(disk, specs[|specs| - 1], w)
  }

  /** What `main` leaves on disk: everything planned, or nothing. */
  function Written(disk: Disk, plan: Option<Work>, dryRun: bool): Disk {
    if plan.None? || dryRun then disk
    else (p: Path) => Current(disk, plan.value, p)
  }

  // ---- one file on its own ----------------------------------------------------------

  /** What an edit does to one file, however often its targets name it. */
  function FileTargets(text: string, spec: Spec, ts: seq<Path>, p: Path): Option<(string, nat)>
    decreases |ts|
  {
    if ts == [] then Some((text, 0))
    else
      match FileTargets(text, spec, ts[..|ts| - 1], p)
      case None => None
      case Some((text1, total)) =>
        if ts[|ts| - 1] != p then Some((text1, total))
        else
          match FileStep(text1, spec)
          case None => None
          case Some((text2, n)) => Some((text2, total + n))
  }

  function FileSpec(text: string, spec: Spec, p: Path): Option<(string, nat)> {
    if spec.count.None? || spec.targets.None? then None
    else FileTargets(text, spec, spec.targets.value, p)
  }

  /** The edits that hit one file, composed in order, other files left out of account. */
  function FileAfter(text: string, specs: seq<Spec>, p: Path): Option<string>
    decreases |specs|
  {
    if specs == [] then Some(text)
    else
      match FileAfter(text, specs[..|specs| - 1], p)
      case None => None
      case Some(text1) =>
        match FileSpec(text1, specs[|specs| - 1], p)
        case None => None
        case Some((text2, _)) => Some(text2)
  }

  /** How often the last of some edits hits one file. */
  function LastHits(text: string, specs: seq<Spec>, p: Path): nat
    requires specs != []
  {
    match FileAfter(text, specs[..|specs| - 1], p)
    case None => 0
    case Some(text1) =>
      match FileSpec(text1, specs[|specs| - 1], p)
      case None => 0
      case Some((_, n)) => n
  }

  // ---- the loops --------------------------------------------------------------------

  /** `plan`'s inner loop: one edit over its targets, updating `pending` as it goes. */
  method RunTargets(disk: Disk, spec: Spec, before: Work, targets: seq<Path>) returns (r: Option<(Work, nat)>)
    ensures r == ApplyTargets(disk, spec, before, targets)
  {
    hide FileStep;
    var order, pending, total := before.order, before.pending, 0;
    for j := 0 to |targets|
      invariant ApplyTargets(disk, spec, before, targets[..j]) == Some((Work(order, pending), total))
    {
      var path := targets[j];
      assert targets[..j + 1][..j] == targets[..j];
      var original := if path in pending then pending[path] else disk(path);
      var step := FileStep(original, spec);
      if step.None? {
        TargetFails(disk, spec, before, targets, j);
        return None;
      }
      var (after, n) := step.value;
      if n > 0 {
        if path !in pending { order := order + [path]; }
        pending := pending[path := after];
        total := total + n;
      }
    }
    assert targets[..|targets|] == targets;
    return Some((Work(order, pending), total));
  }

  /** `plan`: every edit in order, or the first refusal. */
  method MakePlan(disk: Disk, specs: seq<Spec>) returns (plan: Option<Work>)
    ensures plan == Plan(disk, specs)
  {
    hide ApplyTargets;
    var w := Work([], map[]);
    for i := 0 to |specs|
      invariant Plan(disk, specs[..i]) == Some(w)
    {
      var spec := specs[i];
      assert specs[..i + 1][..i] == specs[..i];
      if spec.count.None? || spec.targets.None? {
        FailsForGood(disk, specs, i + 1);
        return None;
      }
      var ran := RunTargets(disk, spec, w, spec.targets.value);
      if ran.None? || ran.value.1 == 0 {
        FailsForGood(disk, specs, i + 1);
        return None;
      }
      w := ran.value.0;
    }
    assert specs[..|specs|] == specs;
    return Some(w);
  }

  lemma {:induction false} FailsForGood(disk: Disk, specs: seq<Spec>, i: nat)
    requires 0 < i <= |specs| && Plan(disk, specs[..i]).None?
    ensures Plan(disk, specs).None?
    decreases |specs| - i
  {
    hide ApplySpec;
    if i == |specs| {
      assert specs[..i] == specs;
    } else {
      assert specs[..i + 1][..i] == specs[..i];
      FailsForGood(disk, specs, i + 1);
    }
  }

  lemma {:induction false} TargetFails(disk: Disk, spec: Spec, w: Work, ts: seq<Path>, j: nat)
    requires j < |ts| && ApplyTargets(disk, spec, w, ts[..j + 1]).None?
    ensures ApplyTargets(disk, spec, w, ts).None?
    decreases |ts| - j
  {
    hide ApplyTarget;
    if j + 1 == |ts| {
      assert ts[..j + 1] == ts;
    } else {
      assert ts[..j + 2][..j + 1] == ts[..j + 1];
      TargetFails(disk, spec, w, ts, j + 1);
    }
  }

  /** The files a run of the tool may write. */
  class Tree {
    var files: Disk

    constructor (files: Disk)
      ensures this.files == files
    {
      this.files := files;
    }

    /** Write every planned file, in the order they were first changed. */
    method WriteAll(w: Work)
      requires WorkOk(w)
      modifies this
      ensures forall p :: files(p) == Current(old(files), w, p)
    {
      var was := files;
      for i := 0 to |w.order|
        invariant forall p :: files(p) == if p in w.order[..i] then Current(was, w, p) else was(p)
      {
        var before, path := files, w.order[i];
        var after := w.pending[path];
        assert w.order[..i + 1] == w.order[..i] + [path];
        files := (p: Path) => if p == path then after else before(p);
      }
      assert w.order[..|w.order|] == w.order;
    }

    /** `main`, from a parsed list of edits on: the exit code, and the files written. */
    method Sweep(specs: seq<Spec>, dryRun: bool) returns (code: int)
      modifies this
      ensures code == if specs == [] then 2 else if Plan(old(files), specs).None? then 1 else 0
      ensures forall p :: files(p) == Written(old(files), Plan(old(files), specs), dryRun)(p)
    {
      if specs == [] {
        assert Plan(files, specs) == Some(Work([], map[]));
        return 2;
      }
      hide Plan;
      var plan := MakePlan(files, specs);
      if plan.None? { return 1; }
      if dryRun { return 0; }
      PlanIsOrdered(files, specs);
      WriteAll(plan.value);
      return 0;
    }
  }

  /** The files to write are each named once, in the order they were first changed. */
  ghost predicate WorkOk(w: Work) {
    && (forall p :: p in w.pending <==> p in w.order)
    && (forall i, j :: 0 <= i < j < |w.order| ==> w.order[i] != w.order[j])
  }

  lemma {:induction false} TargetsOrdered(disk: Disk, spec: Spec, w: Work, ts: seq<Path>)
    requires WorkOk(w) && ApplyTargets(disk, spec, w, ts).Some?
    ensures WorkOk(ApplyTargets(disk, spec, w, ts).value.0)
    decreases |ts|
  {
    hide FileStep;
    if ts != [] { TargetsOrdered(disk, spec, w, ts[..|ts| - 1]); }
  }

  lemma {:induction false} PlanIsOrdered(disk: Disk, specs: seq<Spec>)
    requires Plan(disk, specs).Some?
    ensures WorkOk(Plan(disk, specs).value)
    decreases |specs|
  {
    if specs != [] {
      var spec := specs[|specs| - 1];
      PlanIsOrdered(disk, specs[..|specs| - 1]);
      TargetsOrdered(disk, spec, Plan(disk, specs[..|specs| - 1]).value, spec.targets.value);
    }
  }
}
