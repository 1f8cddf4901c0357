/**
 * The candle backend's reuse of its one cache: the record of what the cache holds, and the
 * image feature rows that have to land on the tokens the prefill really evaluates.
 *
 * The tensor library is a set of contracts here, its answers given by `Env`: a rewind that
 * is refused changes nothing, one that is done leaves a prefix, a failed one is followed
 * by a reset, and a generation, failed or not, leaves a prefix of what it was given.
 */
module CandleSpec {
  import opened Common

  type Token = int
  type Row = int

  const IMAGE_SOFT_TOKEN: Token := 258880

  /** One cached position: the token, and the image row injected there, if one was. */
  datatype Cell = Cell(token: Token, row: Option<Row>)

  function Tokens(cells: seq<Cell>): (ts: seq<Token>)
    ensures |ts| == |cells| && forall i :: 0 <= i < |ts| ==> ts[i] == cells[i].token
  {
    seq(|cells|, i requires 0 <= i < |cells| => cells[i].token)
  }

  function Plain(ts: seq<Token>): (cells: seq<Cell>)
    ensures |cells| == |ts| && forall i :: 0 <= i < |ts| ==> cells[i] == Cell(ts[i], None)
  {
    seq(|ts|, i requires 0 <= i < |ts| => Cell(ts[i], None))
  }

  /** `count_image_soft_tokens`. */
  function CountImages(ts: seq<Token>): (n: nat)
    ensures n <= |ts|
  {
    if ts == [] then 0
    else CountImages(ts[..|ts| - 1]) + if ts[|ts| - 1] == IMAGE_SOFT_TOKEN then 1 else 0
  }

  /** A prefill that injects rows in order: the i-th image token gets the i-th row. */
  function Annotate(ts: seq<Token>, rows: seq<Row>): (cells: seq<Cell>)
    ensures |cells| == |ts| && Tokens(cells) == ts
  {
    seq(|ts|, i requires 0 <= i < |ts| =>
      Cell(ts[i], if ts[i] == IMAGE_SOFT_TOKEN && CountImages(ts[..i]) < |rows| then Some(rows[CountImages(ts[..i])])
                  else None))
  }

  datatype RewindAnswer = Refused | Broken | Done(held: nat)

  datatype Env = Env(
    rewind: RewindAnswer,
    narrowErr: bool,
    fails: bool,
    generated: seq<Token>,
    held: nat,             // how much of what it was given the cache ends up holding
    checkpointed: bool)

  /** The provider and its model; a checkpoint is the cells it brings back. */
  datatype State = State(
    cells: seq<Cell>,
    record: seq<Token>,
    checkpoint: Option<seq<Cell>>,
    exposesCache: bool,
    needsCheckpoint: bool)

  /** How far back the cache is asked to go, if it is asked at all. */
  function RewindTarget(s: State, prompt: seq<Token>): Option<nat> {
    var shared := ReusablePrefix(s.record, prompt);
    if shared == 0 || !s.exposesCache then None
    else if s.needsCheckpoint then
      if s.checkpoint.Some? && 0 < |s.checkpoint.value| <= shared then Some(|s.checkpoint.value|) else None
    else Some(shared)
  }

  /** What a rewind to `target` brings the cache back to. */
  function RewoundTo(s: State, target: nat, held: nat): seq<Cell> {
    var source := if s.needsCheckpoint && s.checkpoint.Some? then s.checkpoint.value else s.cells;
    source[..Min(held, Min(target, |source|))]
  }

  /** `reusable_prefix`: the cache afterwards, and how much of the prompt it holds. */
  function Rewound(s: State, prompt: seq<Token>, env: Env): (seq<Cell>, nat) {
    match RewindTarget(s, prompt)
    case None => (s.cells, 0)
    case Some(target) =>
      match env.rewind
      case Refused => (s.cells, 0)
      case Broken => ([], 0)
      case Done(held) => (RewoundTo(s, target, held), |RewoundTo(s, target, held)|)
  }

  /** `image_rows_for_suffix`. */
  function ImageRowsForSuffix(prompt: seq<Token>, reuse: nat, total: nat): Option<(nat, nat)>
    requires reuse <= |prompt|
  {
    var cached := CountImages(prompt[..reuse]);
    var uncached := CountImages(prompt[reuse..]);
    if cached + uncached == total then Some((cached, uncached)) else None
  }

  /** `stage_pending_image_features`: the rows handed to the model, and the reuse left. */
  function Staged(prompt: seq<Token>, reuse: nat, rows: Option<seq<Row>>, env: Env): (seq<Row>, nat)
    requires reuse <= |prompt|
  {
    match rows
    case None => ([], reuse)
    case Some(all) =>
      if |all| > 0 && CountImages(prompt) == 0 then ([], reuse)
      else
        match ImageRowsForSuffix(prompt, reuse, |all|)
        case None => (all, 0)
        case Some((skip, take)) =>
          if take == 0 then ([], reuse)
          else if env.narrowErr then (all, 0)
          else (all[skip..skip + take], reuse)
  }

  /** Everything the cache would hold if the whole call were evaluated on top of `base`. */
  function Evaluated(base: seq<Cell>, suffix: seq<Token>, rows: seq<Row>, generated: seq<Token>): seq<Cell> {
    base + Annotate(suffix, rows) + Plain(generated)
  }

  /** `generate_reusing`: nothing reused means a reset first. */
  function Generated(cells: seq<Cell>, prompt: seq<Token>, reuse: nat, rows: seq<Row>, env: Env): seq<Cell>
    requires reuse <= |prompt|
  {
    var all := Evaluated(if reuse == 0 then [] else cells, prompt[reuse..], rows, env.generated);
    all[..Min(env.held, |all|)]
  }

  /** `remember`. */
  function Remembered(s: State, prompt: seq<Token>, generated: seq<Token>, checkpoint: Option<seq<Cell>>): State {
    var held := if s.exposesCache then |s.cells| else 0;
    var full := prompt + generated;
    if 0 < held <= |full| then s.(record := full[..held], checkpoint := checkpoint)
    else s.(record := [], checkpoint := None)
  }

  /** `run_generate_ids`, as far as the cache goes: the state after it, whichever way it went. */
  function Run(s: State, prompt: seq<Token>, rows: Option<seq<Row>>, env: Env): State {
    var (cells, rewound) := Rewound(s, prompt, env);
    var reuse := Min(rewound, |prompt|);
    var (staged, reuse') := Staged(prompt, reuse, rows, env);
    var after := Generated(cells, prompt, reuse', staged, env);
    var checkpoint := if env.fails || !env.checkpointed then None else Some(after[..Min(|prompt|, |after|)]);
    Remembered(s.(cells := after, checkpoint := None), prompt, env.generated, checkpoint)
  }
}
