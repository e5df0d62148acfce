/**
 Updates to session information (crates/acp_thread/src/connection.rs): patches whose fields
 are undefined, null or a value, applied in place. The timestamp parser is a parameter.
 */
module SessionPatch {
  import opened Prelude

  type Meta = map<string, string>
  type Instant = int
  type TimeParser = string -> Option<Instant>

  datatype MaybeUndefined<+T> = Undefined | Null | Value(value: T) {
    /** `take`: what a defined field is set to. */
    function Take(): (r: Option<T>)
      requires !Undefined?
    {
      if Null? then None else Some(value)
    }
  }

  datatype Update = Update(
    title: MaybeUndefined<string>, updatedAt: MaybeUndefined<string>, meta: MaybeUndefined<Meta>)

  /** An update of version 1, where metadata is a plain option. */
  datatype V1Update = V1Update(
    title: MaybeUndefined<string>, updatedAt: MaybeUndefined<string>, meta: Option<Meta>)

  /** The part of the session information that updates touch. */
  datatype Info = Info(title: Option<string>, updatedAt: Option<Instant>, meta: Option<Meta>)

  // ---- The effect of one update ---------------------------------------------------------

  /** A field after a patch to it. */
  function Patched<T>(before: Option<T>, patch: MaybeUndefined<T>): (r: Option<T>) {
    if patch.Undefined? then before else patch.Take()
  }

  /** The timestamp patch; one that does not parse is ignored. */
  function ParsedTime(patch: MaybeUndefined<string>, parse: TimeParser): (r: MaybeUndefined<Instant>) {
    match patch
    case Undefined => Undefined
    case Null => Null
    case Value(text) => if parse(text).Some? then Value(parse(text).value) else Undefined
  }

  function Apply(s: Info, u: Update, parse: TimeParser): (r: Info) {
    Info(Patched(s.title, u.title), Patched(s.updatedAt, ParsedTime(u.updatedAt, parse)), Patched(s.meta, u.meta))
  }

  /** The field is cleared by null, replaced by a value, and kept when the update does not mention it. */
  ghost predicate Follows<T>(after: Option<T>, before: Option<T>, patch: MaybeUndefined<T>) {
    && (patch == Undefined ==> after == before)
    && (patch == Null ==> after == None)
    && (patch.Value? ==> after == Some(patch.value))
  }

  /** The same for a timestamp, which is kept when the text does not parse. */
  ghost predicate FollowsTime(after: Option<Instant>, before: Option<Instant>, patch: MaybeUndefined<string>, parse: TimeParser) {
    && (patch == Null ==> after == None)
    && (patch == Undefined ==> after == before)
    && (patch.Value? ==> after == if parse(patch.value) == None then before else parse(patch.value))
  }

  class AgentSessionInfo {
    const sessionId: string
    const workDirs: Option<seq<string>>
    const createdAt: Option<Instant>
    var title: Option<string>
    var updatedAt: Option<Instant>
    var meta: Option<Meta>

    constructor (sessionId: string)
      ensures this.sessionId == sessionId && workDirs == None && createdAt == None
      ensures State() == Info(None, None, None)
    {
      this.sessionId, workDirs, createdAt := sessionId, None, None;
      title, updatedAt, meta := None, None, None;
    }

    function State(): (s: Info)
      reads this
    {
      Info(title, updatedAt, meta)
    }

    /** The flag is true exactly when the state differs. */
    method ApplyUpdate(update: Update, parse: TimeParser) returns (changed: bool)
      modifies this
      ensures State() == Apply(old(State()), update, parse)
      ensures Follows(title, old(title), update.title) && Follows(meta, old(meta), update.meta)
      ensures FollowsTime(updatedAt, old(updatedAt), update.updatedAt, parse)
      ensures changed <==> title != old(title) || updatedAt != old(updatedAt) || meta != old(meta)
    {
      changed := false;
      if !update.title.Undefined? {
        var t := update.title.Take();
        changed := changed || title != t;
        title := t;
      }
      var parsed: Option<Option<Instant>>;
      match update.updatedAt {
        case Undefined => parsed := None;
        case Null => parsed := Some(None);
        case Value(text) => parsed := if parse(text).Some? then Some(Some(parse(text).value)) else None;
      }
      if parsed.Some? {
        changed := changed || updatedAt != parsed.value;
        updatedAt := parsed.value;
      }
      if !update.meta.Undefined? {
        var m := update.meta.Take();
        changed := changed || meta != m;
        meta := m;
      }
    }
  }

  // ---- Sequences of updates ----------------------------------------------------------------

  function Either<T>(first: MaybeUndefined<T>, second: MaybeUndefined<T>): (r: MaybeUndefined<T>) {
    if second.Undefined? then first else second
  }

  /** One update with the effect of two; a timestamp that does not parse overrides nothing. */
  function Merge(first: Update, second: Update, parse: TimeParser): (r: Update) {
    Update(
      Either(first.title, second.title),
      if ParsedTime(second.updatedAt, parse).Undefined? then first.updatedAt else second.updatedAt,
      Either(first.meta, second.meta))
  }

  const NOTHING := Update(Undefined, Undefined, Undefined)

  function MergeAll(us: seq<Update>, parse: TimeParser): (r: Update) {
    if us == [] then NOTHING else Merge(MergeAll(us[..|us| - 1], parse), us[|us| - 1], parse)
  }

  function ApplyAll(s: Info, us: seq<Update>, parse: TimeParser): (r: Info) {
    if us == [] then s else Apply(ApplyAll(s, us[..|us| - 1], parse), us[|us| - 1], parse)
  }

  /** Two updates have the same effect on every state. */
  ghost predicate SameEffect(a: Update, b: Update, parse: TimeParser) {
    forall s :: Apply(s, a, parse) == Apply(s, b, parse)
  }

  /** Any sequence of updates has the effect of one merged update. */
  lemma {:induction false} ApplyAllMerges(s: Info, us: seq<Update>, parse: TimeParser)
    ensures ApplyAll(s, us, parse) == Apply(s, MergeAll(us, parse), parse)
  {
    if us != [] {
      ApplyAllMerges(s, us[..|us| - 1], parse);
    }
  }

  /** Applying an update again changes nothing. */
  lemma Idempotent(s: Info, u: Update, parse: TimeParser)
    ensures Apply(Apply(s, u, parse), u, parse) == Apply(s, u, parse)
  {
  }

  /** An update that changes nothing on any state is one without a defined field or with an invalid timestamp only. */
  lemma NoEffectIff(u: Update, parse: TimeParser)
    ensures SameEffect(u, NOTHING, parse) <==>
            u.title.Undefined? && u.meta.Undefined? && ParsedTime(u.updatedAt, parse).Undefined?
  {
    var empty := Info(None, None, None);
    var full := Info(Some(""), Some(0), Some(map[]));
    if SameEffect(u, NOTHING, parse) {
      assert Apply(empty, u, parse) == Apply(empty, NOTHING, parse) == empty;
      assert Apply(full, u, parse) == Apply(full, NOTHING, parse) == full;
    }
  }

  // ---- Updates of version 1 -------------------------------------------------------------------

  function SessionInfoUpdateFromV1(u: V1Update): (r: Update) {
    Update(u.title, u.updatedAt, if u.meta.Some? then Value(u.meta.value) else Undefined)
  }

  /** A converted update sets and clears title and timestamp as before, and only ever sets metadata. */
  lemma V1Follows(s: Info, u: V1Update, parse: TimeParser)
    ensures var r := Apply(s, SessionInfoUpdateFromV1(u), parse);
            && Follows(r.title, s.title, u.title) && FollowsTime(r.updatedAt, s.updatedAt, u.updatedAt, parse)
            && (u.meta.Some? ==> r.meta == u.meta) && (u.meta.None? ==> r.meta == s.meta)
  {
  }

  function Converted(us: seq<V1Update>): (r: seq<Update>)
    ensures |r| == |us| && forall i :: 0 <= i < |us| ==> r[i] == SessionInfoUpdateFromV1(us[i])
  {
    seq(|us|, i requires 0 <= i < |us| => SessionInfoUpdateFromV1(us[i]))
  }

  /** The last metadata any of the updates carries. */
  function LastMeta(us: seq<V1Update>): (m: Option<Meta>) {
    if us == [] then None
    else if us[|us| - 1].meta.Some? then us[|us| - 1].meta
    else LastMeta(us[..|us| - 1])
  }

  /** Converted updates never clear metadata: it is the last that any of them carried, or stays as it was. */
  lemma {:induction false} V1KeepsMeta(s: Info, us: seq<V1Update>, parse: TimeParser)
    ensures ApplyAll(s, Converted(us), parse).meta == if LastMeta(us).Some? then LastMeta(us) else s.meta
    ensures s.meta.Some? ==> ApplyAll(s, Converted(us), parse).meta.Some?
  {
    if us != [] {
      V1KeepsMeta(s, us[..|us| - 1], parse);
      assert Converted(us)[..|us| - 1] == Converted(us[..|us| - 1]);
    }
  }
}
