/**
 * `strip_generation_markers`: a chat template as the segments its lexer sees, and the
 * rewriting of the generation markers among them.
 *
 * A scan is a function of the text still ahead, so "the same segment, whatever follows"
 * can be said directly; the methods walk an index over the whole text as the source does.
 */
module Template {
  import opened Common
  import opened Text

  // ---- scanning one tag -------------------------------------------------------------

  /** How far ahead a tag ends, closer included, skipping quoted strings; none if never. */
  function TagLen(s: string, closer: string, quote: Option<char>): (r: Option<nat>)
    requires |closer| == 2
    ensures r.Some? ==> 2 <= r.value <= |s|
  {
    if s == [] then None
    else if quote.Some? then
      if s[0] == '\\' then if |s| < 2 then None else Later(2, TagLen(s[2..], closer, quote))
      else Later(1, TagLen(s[1..], closer, if s[0] == quote.value then None else quote))
    else if s[0] == '\'' || s[0] == '"' then Later(1, TagLen(s[1..], closer, Some(s[0])))
    else if StartsWith(s, closer) then Some(2)
    else Later(1, TagLen(s[1..], closer, None))
  }

  function StripSuffixOr(s: string, suffix: string): string {
    if |suffix| <= |s| && s[|s| - |suffix|..] == suffix then s[..|s| - |suffix|] else []
  }

  function TrimDashStart(s: string): string {
    if s != [] && s[0] == '-' then TrimDashStart(s[1..]) else s
  }

  function TrimDashEnd(s: string): string {
    if s != [] && s[|s| - 1] == '-' then TrimDashEnd(s[..|s| - 1]) else s
  }

  /** The statement a tag's inside names, whitespace control put aside. */
  function Name(inner: string): string { Trim(TrimDashEnd(TrimDashStart(inner))) }

  /** The inside of a statement tag that starts right after its `{%`. */
  function Inner(tag: string): string { StripSuffixOr(tag, "%}") }

  /** The next statement tag ahead, as where its `{%` ends and where it ends. */
  function NextTag(s: string): (r: Option<(nat, nat)>)
    ensures r.Some? ==> 2 <= r.value.0 <= r.value.1 <= |s|
  {
    match Find(s, "{%")
    case None => None
    case Some(k) =>
      match TagLen(s[k + 2..], "%}", None)
      case None => None
      case Some(n) => Some((k + 2, k + 2 + n))
  }

  predicate EndsRaw(tag: string) { Name(Inner(tag)) == "endraw" }

  /** How far ahead the next tag that `ends` accepts ends; none if never. */
  function TagEndingLen(s: string, ends: string -> bool): (r: Option<nat>)
    ensures r.Some? ==> r.value <= |s|
    decreases |s|
  {
    match NextTag(s)
    case None => None
    case Some((from, end)) =>
      if ends(s[from..end]) then Some(end) else Later(end, TagEndingLen(s[end..], ends))
  }

  // ---- segments ---------------------------------------------------------------------

  datatype Segment =
    | Char(c: char)
    | Comment(comment: string)
    | Expression(expression: string)
    | Marker(marker: string)
    | Raw(raw: string)
    | Statement(statement: string)
  {
    function Text(): string {
      match this
      case Char(c) => [c]
      case Comment(t) => t
      case Expression(t) => t
      case Marker(t) => t
      case Raw(t) => t
      case Statement(t) => t
    }
  }

  function EndOr(r: Option<nat>, s: string): nat { match r case None => |s| case Some(n) => n }

  predicate IsMarkerName(name: string) { name == "generation" || name == "endgeneration" }

  /** Where the construct a template starts with ends, opened by `{` and `s[1]`. */
  function ConstructEnd(s: string): (end: nat)
    requires |s| >= 2
    ensures 2 <= end <= |s|
  {
    EndOr(if s[1] == '#' then Later(4, Find(s[2..], "#}"))
          else Later(2, TagLen(s[2..], if s[1] == '{' then "}}" else "%}", None)), s)
  }

  /** A statement tag that ends at `end`, with what it governs. */
  function FirstStatement(s: string, end: nat): (g: Segment)
    requires 2 <= end <= |s|
    ensures 2 <= |g.Text()| <= |s| && g.Text() == s[..|g.Text()|]
  {
    var name := Name(Inner(s[2..end]));
    if IsMarkerName(name) then Marker(s[..end])
    else if name == "raw" then Raw(s[..EndOr(Later(end, TagEndingLen(s[end..], EndsRaw)), s)])
    else Statement(s[..end])
  }

  /** The segment a template starts with. */
  function First(s: string): (g: Segment)
    requires s != []
    ensures 0 < |g.Text()| <= |s| && g.Text() == s[..|g.Text()|]
  {
    if s[0] != '{' || |s| < 2 then Char(s[0])
    else if s[1] == '#' then Comment(s[..ConstructEnd(s)])
    else if s[1] == '{' then Expression(s[..ConstructEnd(s)])
    else if s[1] == '%' then FirstStatement(s, ConstructEnd(s))
    else Char(s[0])
  }

  function Segments(s: string): seq<Segment> {
    if s == [] then []
    else
      var g := First(s);
      [g] + Segments(s[|g.Text()|..])
  }

  /** What becomes of a segment: a marker turns into an empty comment, all else stays. */
  function Rewrite(g: Segment): Segment {
    if g.Marker? then Comment(EmptyComment(Inner(g.marker[Min(2, |g.marker|)..]))) else g
  }

  function EmptyComment(inner: string): string {
    (if inner != [] && inner[0] == '-' then "{#-" else "{#")
    + if inner != [] && inner[|inner| - 1] == '-' then "-#}" else "#}"
  }

  function RewriteAll(gs: seq<Segment>): seq<Segment> {
    if gs == [] then [] else [Rewrite(gs[0])] + RewriteAll(gs[1..])
  }

  function Flatten(gs: seq<Segment>): string {
    if gs == [] then [] else gs[0].Text() + Flatten(gs[1..])
  }

  /** `strip_generation_markers`. */
  function Strip(s: string): string { Flatten(RewriteAll(Segments(s))) }
}
