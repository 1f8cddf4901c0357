/** The candle provider and its model as objects: the cells it borrows, and each method's effect. */
module Candle {
  import opened Common
  import opened CandleSpec

  /** The model behind the provider: a cache, and the image rows set for the next prefill. */
  class CausalModel {
    var cells: seq<Cell>
    var features: seq<Row>
    const exposesCache: bool
    const needsCheckpoint: bool

    constructor (exposesCache: bool, needsCheckpoint: bool)
      ensures cells == [] && features == []
      ensures this.exposesCache == exposesCache && this.needsCheckpoint == needsCheckpoint
    {
      cells, features := [], [];
      this.exposesCache, this.needsCheckpoint := exposesCache, needsCheckpoint;
    }

    /** `ModelCache::rewind`: no answer is a failure, `false` a refusal that changed nothing. */
    method Rewind(target: nat, checkpoint: Option<seq<Cell>>, env: Env) returns (done: Option<bool>)
      modifies this`cells
      ensures done == match env.rewind case Refused => Some(false) case Broken => None case Done(_) => Some(true)
      ensures cells == if env.rewind.Done?
                       then RewoundTo(State(old(cells), [], checkpoint, exposesCache, needsCheckpoint), target, env.rewind.held)
                       else old(cells)
    {
      match env.rewind
      case Refused => done := Some(false);
      case Broken => done := None;
      case Done(held) =>
        cells := RewoundTo(State(cells, [], checkpoint, exposesCache, needsCheckpoint), target, held);
        done := Some(true);
    }

    method Reset()
      modifies this`cells
      ensures cells == []
    {
      cells := [];
    }

    method SetImageFeatures(rows: seq<Row>)
      modifies this`features
      ensures features == rows
    {
      features := rows;
    }

    /** `generate_reusing`: uses up the features; on success, perhaps a checkpoint of the prompt. */
    method GenerateReusing(prompt: seq<Token>, reuse: nat, env: Env)
      returns (ok: bool, generated: seq<Token>, checkpoint: Option<seq<Cell>>)
      requires reuse <= |prompt|
      modifies this
      ensures ok == !env.fails && generated == env.generated && features == []
      ensures cells == Generated(old(cells), prompt, reuse, old(features), env)
      ensures checkpoint == if env.fails || !env.checkpointed then None else Some(cells[..Min(|prompt|, |cells|)])
    {
      cells := Generated(cells, prompt, reuse, features, env);
      features := [];
      ok, generated := !env.fails, env.generated;
      checkpoint := if env.fails || !env.checkpointed then None else Some(cells[..Min(|prompt|, |cells|)]);
    }
  }

  class CandleProvider {
    const model: CausalModel
    var cached: seq<Token>
    var checkpoint: Option<seq<Cell>>
    var stagedImageFeatures: Option<seq<Row>>

    constructor (model: CausalModel)
      ensures this.model == model && cached == [] && checkpoint == None && stagedImageFeatures == None
    {
      this.model := model;
      cached, checkpoint, stagedImageFeatures := [], None, None;
    }

    function View(): State
      reads this, model
    {
      State(model.cells, cached, checkpoint, model.exposesCache, model.needsCheckpoint)
    }

    /** `reusable_prefix`. */
    method RewindToPrefix(prompt: seq<Token>, env: Env) returns (reuse: nat)
      modifies model`cells
      ensures (model.cells, reuse) == Rewound(old(View()), prompt, env)
    {
      var shared := ReusablePrefix(cached, prompt);
      if shared == 0 { return 0; }
      if !model.exposesCache { return 0; }
      var target := shared;
      if model.needsCheckpoint {
        if checkpoint.None? || |checkpoint.value| == 0 || |checkpoint.value| > shared { return 0; }
        target := |checkpoint.value|;
      }
      var done := model.Rewind(target, checkpoint, env);
      if done.None? {
        model.Reset();
        return 0;
      }
      return if done.value then |model.cells| else 0;
    }

    /** `stage_pending_image_features`. */
    method StagePendingImageFeatures(prompt: seq<Token>, reuse: nat, env: Env) returns (left: nat)
      requires reuse <= |prompt| && model.features == []
      modifies this`stagedImageFeatures, model`features
      ensures (model.features, left) == Staged(prompt, reuse, old(stagedImageFeatures), env)
      ensures stagedImageFeatures == None
    {
      var pending := stagedImageFeatures;
      stagedImageFeatures := None;
      if pending.None? { return reuse; }
      var rows := pending.value;
      if |rows| > 0 && CountImages(prompt) == 0 { return reuse; }
      var needed := ImageRowsForSuffix(prompt, reuse, |rows|);
      if needed.None? {
        model.SetImageFeatures(rows);
        return 0;
      }
      var (skip, take) := needed.value;
      if take == 0 { return reuse; }
      if env.narrowErr {
        model.SetImageFeatures(rows);
        return 0;
      }
      model.SetImageFeatures(rows[skip..skip + take]);
      return reuse;
    }

    /** `remember`. */
    method Remember(prompt: seq<Token>, generated: seq<Token>, taken: Option<seq<Cell>>)
      modifies this`cached, this`checkpoint
      ensures View() == Remembered(old(View()), prompt, generated, taken)
    {
      var held := if model.exposesCache then |model.cells| else 0;
      var full := prompt + generated;
      cached := [];
      if held > 0 && held <= |full| {
        cached := full[..held];
        checkpoint := taken;
      } else {
        checkpoint := None;
      }
    }

    /** `run_generate_ids`, without its text. */
    method RunGenerateIds(prompt: seq<Token>, env: Env) returns (generated: Option<seq<Token>>)
      requires model.features == []
      modifies this, model
      ensures View() == Run(old(View()), prompt, old(stagedImageFeatures), env)
      ensures generated == if env.fails then None else Some(env.generated)
      ensures model.features == [] && stagedImageFeatures == None
    {
      hide Rewound, Staged, Generated, Remembered;
      var rewound := RewindToPrefix(prompt, env);
      // Held no longer than the rewind above: this call stores its own.
      checkpoint := None;
      var reuse := StagePendingImageFeatures(prompt, Min(rewound, |prompt|), env);
      assert reuse <= |prompt| by { StagedFits(prompt, Min(rewound, |prompt|), old(stagedImageFeatures), env); }
      var ok, ids, taken := model.GenerateReusing(prompt, reuse, env);
      Remember(prompt, ids, taken);
      return if ok then Some(ids) else None;
    }
  }

  lemma StagedFits(prompt: seq<Token>, reuse: nat, rows: Option<seq<Row>>, env: Env)
    requires reuse <= |prompt|
    ensures Staged(prompt, reuse, rows, env).1 <= |prompt|
  {}
}
