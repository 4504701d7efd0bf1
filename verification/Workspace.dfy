/** Multi-file mutations (libreevolve/core/candidate.py, `apply_workspace_mutation`): the
    section interpreter, the conflict and static-member checks that guard it, and the
    fact that the order of the sections does not matter. */
module Workspace {
  import opened Text
  import Sorting

  type Path = string

  // ----- data

  datatype Policy = Immutable | MetadataOnly | LlmEditable

  datatype StaticFile = StaticFile(
    kind: string, policy: Policy, sha256: string, bytes: nat, sourceKind: string,
    sourcePath: Option<string>, sourceCopyPath: Option<string>, content: Option<string>)

  datatype CandidateWorkspace = CandidateWorkspace(
    files: map<Path, string>, primary: Path, statics: map<Path, StaticFile>)

  /** A parsed FILE section: its command and its body. */
  datatype Section =
    | Edit(path: Path, body: string)
    | Static(path: Path, kind: string, body: string)
    | Delete(path: Path, body: string)
    | Move(path: Path, target: Path, body: string)
    | Primary(path: Path, body: string)
  {
    predicate EditLike() { Edit? || Static? }
    predicate Topology() { Delete? || Move? }
    predicate Command() { Delete? || Move? || Primary? }
  }

  datatype Error =
    | DuplicatePrimary | DuplicateFileSection(path: Path)
    | DuplicateTopology(path: Path) | DuplicateMoveTarget(path: Path)
    | ConflictingOperations(path: Path) | UnexpectedCommandBody(path: Path) | StaticMemberProtected(path: Path)
    | StaticEditingNotSupported(path: Path)
    | TargetExists(path: Path) | BlankStaticContent(path: Path) | InvalidBase64(path: Path) | StaticTooLarge(path: Path)
    | MissingSource(path: Path) | CannotDeleteLastFile(path: Path) | EditFailed(path: Path, reason: string)
    | MissingPrimary(path: Path) | PrimaryDeleted(path: Path) | NoValidChanges | Rejected(reason: string)

  datatype Decoded = Decoded(bytes: nat, sha256: string)

  const MAX_STATIC_FILE_BYTES := 2_000_000

  /** The parts of the system the interpreter calls: editing one file (whose old text is
      None when it is created), base64 decoding, and the final checks of the result. */
  datatype Env = Env(
    mutate: (Option<string>, string) -> Result<string, string>,
    decode: string -> Option<Decoded>,
    check: CandidateWorkspace -> Option<string>)

  // ----- the conflict check

  datatype Seen = Seen(edits: set<Path>, sources: set<Path>, targets: set<Path>, primaries: nat)

  const NOTHING_SEEN := Seen({}, {}, {}, 0)

  /** One section of the conflict loop: what it adds to the sets, or the duplicate found. */
  function See(seen: Seen, s: Section): Result<Seen, Error> {
    if s.Primary? then
      if seen.primaries >= 1 then Err(DuplicatePrimary) else Ok(seen.(primaries := seen.primaries + 1))
    else if s.EditLike() then
      if s.path in seen.edits then Err(DuplicateFileSection(s.path)) else Ok(seen.(edits := seen.edits + {s.path}))
    else if s.path in seen.sources then Err(DuplicateTopology(s.path))
    else if s.Move? then
      if s.target in seen.targets then Err(DuplicateMoveTarget(s.target))
      else Ok(seen.(sources := seen.sources + {s.path}, targets := seen.targets + {s.target}))
    else Ok(seen.(sources := seen.sources + {s.path}))
  }

  function SeeAll(seen: Seen, sections: seq<Section>): Result<Seen, Error>
    decreases |sections|
  {
    if sections == [] then Ok(seen)
    else match See(seen, sections[0])
      case Err(e) => Err(e)
      case Ok(seen') => SeeAll(seen', sections[1..])
  }

  function FindConflict(sections: seq<Section>): Option<Error> {
    match SeeAll(NOTHING_SEEN, sections)
    case Err(e) => Some(e)
    case Ok(seen) =>
      var edited, chained := seen.edits * (seen.sources + seen.targets), seen.targets * seen.sources;
      if edited != {} then Some(ConflictingOperations(FirstOf(edited)))
      else if chained != {} then Some(ConflictingOperations(FirstOf(chained)))
      else None
  }

  /** `_find_section_path_conflict`, with its sets. */
  method FindSectionPathConflict(sections: seq<Section>) returns (conflict: Option<Error>)
    ensures conflict == FindConflict(sections)
  {
    var edits, sources, targets: set<Path>, primaries: nat := {}, {}, {}, 0;
    for i := 0 to |sections|
      invariant SeeAll(NOTHING_SEEN, sections) == SeeAll(Seen(edits, sources, targets, primaries), sections[i..])
    {
      var s := sections[i];
      assert sections[i..][0] == s && sections[i..][1..] == sections[i + 1..];
      if s.Primary? {
        primaries := primaries + 1;
        if primaries > 1 { return Some(DuplicatePrimary); }
      } else if s.EditLike() {
        if s.path in edits { return Some(DuplicateFileSection(s.path)); }
        edits := edits + {s.path};
      } else {
        if s.path in sources { return Some(DuplicateTopology(s.path)); }
        sources := sources + {s.path};
        if s.Move? {
          if s.target in targets { return Some(DuplicateMoveTarget(s.target)); }
          targets := targets + {s.target};
        }
      }
    }
    var conflictingEdits := edits * (sources + targets);
    if conflictingEdits != {} { return Some(ConflictingOperations(FirstOf(conflictingEdits))); }
    var chainedTopology := targets * sources;
    if chainedTopology != {} { return Some(ConflictingOperations(FirstOf(chainedTopology))); }
    return None;
  }

  /** Two sections that must not stand in one mutation. */
  predicate Clash(s: Section, t: Section) {
    || (s.Primary? && t.Primary?)
    || (s.EditLike() && t.EditLike() && s.path == t.path)
    || (s.Topology() && t.Topology() && s.path == t.path)
    || (s.Move? && t.Move? && s.target == t.target)
    || (s.EditLike() && t.Topology() && (s.path == t.path || (t.Move? && s.path == t.target)))
    || (t.EditLike() && s.Topology() && (s.path == t.path || (s.Move? && t.path == s.target)))
    || (s.Move? && t.Topology() && s.target == t.path)
    || (t.Move? && s.Topology() && t.target == s.path)
  }

  predicate Compatible(sections: seq<Section>) {
    forall i, j :: 0 <= i < j < |sections| ==> !Clash(sections[i], sections[j])
  }

  /** Header parsing refuses a move onto itself. */
  predicate Parsed(sections: seq<Section>) {
    forall s <- sections :: s.Move? ==> s.path != s.target
  }

  function EditPaths(sections: seq<Section>): set<Path> {
    set s <- sections | s.EditLike() :: s.path
  }

  function Sources(sections: seq<Section>): set<Path> {
    set s <- sections | s.Topology() :: s.path
  }

  function Targets(sections: seq<Section>): set<Path> {
    set s <- sections | s.Move? :: s.target
  }

  predicate Duplicated(s: Section, t: Section) {
    || (s.Primary? && t.Primary?)
    || (s.EditLike() && t.EditLike() && s.path == t.path)
    || (s.Topology() && t.Topology() && s.path == t.path)
    || (s.Move? && t.Move? && s.target == t.target)
  }

  lemma {:induction false} SeeAllMeaning(sections: seq<Section>, i: nat, seen: Seen)
    requires i <= |sections|
    requires forall a, b :: 0 <= a < b < i ==> !Duplicated(sections[a], sections[b])
    requires seen.edits == EditPaths(sections[..i]) && seen.sources == Sources(sections[..i])
    requires seen.targets == Targets(sections[..i])
    requires seen.primaries >= 1 <==> exists s <- sections[..i] :: s.Primary?
    ensures var r := SeeAll(seen, sections[i..]);
            && (r.Ok? <==> forall a, b :: 0 <= a < b < |sections| ==> !Duplicated(sections[a], sections[b]))
            && (r.Ok? ==> r.value.edits == EditPaths(sections) && r.value.sources == Sources(sections)
                          && r.value.targets == Targets(sections))
    decreases |sections| - i
  {
    hide See, Duplicated, EditPaths, Sources, Targets;
    if i == |sections| {
      assert sections[..i] == sections;
    } else {
      var s := sections[i];
      assert sections[i..][0] == s && sections[i..][1..] == sections[i + 1..];
      assert sections[..i + 1] == sections[..i] + [s];
      SeeOne(sections[..i], s, seen);
      match See(seen, s)
      case Err(_) =>
        var t :| t in sections[..i] && Duplicated(t, s);
        var a :| 0 <= a < i && sections[a] == t;
        assert Duplicated(sections[a], sections[i]);
      case Ok(seen') =>
        forall a, b | 0 <= a < b < i + 1
          ensures !Duplicated(sections[a], sections[b])
        {
          assert b == i ==> sections[a] in sections[..i];
        }
        SeeAllMeaning(sections, i + 1, seen');
    }
  }

  lemma {:induction false} SeeOne(before: seq<Section>, s: Section, seen: Seen)
    requires seen.edits == EditPaths(before) && seen.sources == Sources(before) && seen.targets == Targets(before)
    requires seen.primaries >= 1 <==> exists t <- before :: t.Primary?
    ensures See(seen, s).Err? <==> exists t <- before :: Duplicated(t, s)
    ensures See(seen, s).Ok? ==>
              var seen', after := See(seen, s).value, before + [s];
              && seen'.edits == EditPaths(after) && seen'.sources == Sources(after) && seen'.targets == Targets(after)
              && (seen'.primaries >= 1 <==> exists t <- after :: t.Primary?)
  {
    var after := before + [s];
    assert forall t :: t in after <==> t in before || t == s;
    if See(seen, s).Ok? {
      assert s in after;
      assert EditPaths(after) == EditPaths(before) + (if s.EditLike() then {s.path} else {});
      assert Sources(after) == Sources(before) + (if s.Topology() then {s.path} else {});
      assert Targets(after) == Targets(before) + (if s.Move? then {s.target} else {});
      if exists t <- before :: t.Primary? {
        var t :| t in before && t.Primary?;
        assert t in after;
      }
    }
  }

  /** The set-based check accepts a list exactly when no two of its sections clash. */
  lemma {:induction false} ConflictCheckMeaning(sections: seq<Section>)
    requires Parsed(sections)
    ensures FindConflict(sections).None? <==> Compatible(sections)
  {
    assert sections[0..] == sections && sections[..0] == [];
    SeeAllMeaning(sections, 0, NOTHING_SEEN);
    if SeeAll(NOTHING_SEEN, sections).Ok? {
      DisjointMeaning(sections);
    } else {
      var a, b :| 0 <= a < b < |sections| && Duplicated(sections[a], sections[b]);
      assert Clash(sections[a], sections[b]);
    }
  }

  /** Which path a conflict of operations is reported for, whatever the order of the sections:
      the first, in the order of texts, that is both edited and moved or deleted, and only
      when there is none the first that one section moves a file to and another one removes. */
  lemma {:induction false} ConflictNamesTheFirst(sections: seq<Section>, path: Path)
    ensures var edited := EditPaths(sections) * (Sources(sections) + Targets(sections));
            var chained := Targets(sections) * Sources(sections);
            FindConflict(sections) == Some(ConflictingOperations(path))
            <==> && (forall a, b :: 0 <= a < b < |sections| ==> !Duplicated(sections[a], sections[b]))
                 && IsFirstOf(path, if edited != {} then edited else chained)
  {
    hide See, Duplicated, EditPaths, Sources, Targets, IsFirstOf, SeeAll;
    var edited := EditPaths(sections) * (Sources(sections) + Targets(sections));
    var chained := Targets(sections) * Sources(sections);
    assert sections[0..] == sections;
    NothingSeen(sections);
    SeeAllMeaning(sections, 0, NOTHING_SEEN);
    SeeAllErrors(NOTHING_SEEN, sections);
    OnlyOneFirst(edited);
    OnlyOneFirst(chained);
    NoFirstOfNothing(path);
  }

  lemma NothingSeen(sections: seq<Section>)
    ensures EditPaths(sections[..0]) == Sources(sections[..0]) == Targets(sections[..0]) == {}
  {
  }

  lemma NoFirstOfNothing(path: Path)
    ensures !IsFirstOf(path, {})
  {
  }

  /** The loop itself only reports duplicates. */
  lemma {:induction false} SeeAllErrors(seen: Seen, sections: seq<Section>)
    ensures SeeAll(seen, sections).Err? ==> !SeeAll(seen, sections).error.ConflictingOperations?
    decreases |sections|
  {
    if sections != [] && See(seen, sections[0]).Ok? {
      SeeAllErrors(See(seen, sections[0]).value, sections[1..]);
    }
  }

  lemma {:induction false} DisjointMeaning(sections: seq<Section>)
    requires Parsed(sections)
    requires forall a, b :: 0 <= a < b < |sections| ==> !Duplicated(sections[a], sections[b])
    ensures Compatible(sections)
            <==> EditPaths(sections) * (Sources(sections) + Targets(sections)) == {}
                 && Targets(sections) * Sources(sections) == {}
  {
    if Compatible(sections) {
      CompatibleIsDisjoint(sections);
    }
    var e, s, t := EditPaths(sections), Sources(sections), Targets(sections);
    if e * (s + t) == {} && t * s == {} {
      assert forall p :: p in e ==> p !in s && p !in t by {
        assert forall p :: p in e && p in s + t ==> p in e * (s + t);
      }
      assert forall p :: p in t ==> p !in s by { assert forall p :: p in t && p in s ==> p in t * s; }
      forall i, j | 0 <= i < j < |sections|
        ensures !Clash(sections[i], sections[j])
      {
        MembersOfSets(sections, sections[i]);
        MembersOfSets(sections, sections[j]);
        hide EditPaths, Sources, Targets;
      }
    }
  }

  lemma MembersOfSets(sections: seq<Section>, x: Section)
    requires x in sections
    ensures x.EditLike() ==> x.path in EditPaths(sections)
    ensures x.Topology() ==> x.path in Sources(sections)
    ensures x.Move? ==> x.target in Targets(sections)
  {
  }

  lemma {:induction false} CompatibleIsDisjoint(sections: seq<Section>)
    requires Parsed(sections) && Compatible(sections)
    ensures EditPaths(sections) * (Sources(sections) + Targets(sections)) == {}
    ensures Targets(sections) * Sources(sections) == {}
  {
    forall x, y | x in sections && y in sections && x != y
      ensures !Clash(x, y)
    {
      var i :| 0 <= i < |sections| && sections[i] == x;
      var j :| 0 <= j < |sections| && sections[j] == y;
      assert !Clash(sections[i], sections[j]) || !Clash(sections[j], sections[i]);
    }
  }

  // ----- the checks before the loop

  /** `_validate_topology_command_bodies`. */
  function FindCommandBody(sections: seq<Section>): Option<Error> {
    if sections == [] then None
    else if sections[0].Command() && !IsBlank(sections[0].body) then Some(UnexpectedCommandBody(sections[0].path))
    else FindCommandBody(sections[1..])
  }

  /** The static-member rule for one section: immutable members cannot be named at all,
      editable ones only by STATIC sections. */
  function StaticRule(s: Section, statics: map<Path, StaticFile>): Option<Error> {
    if s.path in statics then
      if statics[s.path].policy != LlmEditable then Some(StaticMemberProtected(s.path))
      else if s.Static? then None
      else Some(StaticEditingNotSupported(s.path))
    else if s.Move? && s.target in statics then
      if statics[s.target].policy != LlmEditable then Some(StaticMemberProtected(s.target))
      else Some(StaticEditingNotSupported(s.target))
    else None
  }

  /** `_validate_static_member_mutation_policy`. */
  function FindStaticError(sections: seq<Section>, statics: map<Path, StaticFile>): Option<Error> {
    if sections == [] then None
    else if StaticRule(sections[0], statics).Some? then StaticRule(sections[0], statics)
    else FindStaticError(sections[1..], statics)
  }

  lemma {:induction false} ChecksMeaning(sections: seq<Section>, statics: map<Path, StaticFile>)
    ensures FindCommandBody(sections).None? <==> forall s <- sections :: s.Command() ==> IsBlank(s.body)
    ensures FindStaticError(sections, statics).None? <==> forall s <- sections :: StaticRule(s, statics).None?
  {
    hide IsBlank, StaticRule;
    if sections != [] {
      ChecksMeaning(sections[1..], statics);
      assert forall s :: s in sections <==> s == sections[0] || s in sections[1..];
    }
  }

  // ----- the interpreter

  datatype Work = Work(files: map<Path, string>, statics: map<Path, StaticFile>, primary: Option<Path>, changed: bool)

  function Lookup(files: map<Path, string>, path: Path): Option<string> {
    if path in files then Some(files[path]) else None
  }

  /** What a STATIC section stores, or the reason it is refused. */
  function StaticPayload(env: Env, s: Section): Result<Decoded, Error>
    requires s.Static?
  {
    var payload := Strip(s.body);
    if payload == "" then Err(BlankStaticContent(s.path))
    else
      var decoded := env.decode(payload);
      if decoded.None? then Err(InvalidBase64(s.path))
      else if decoded.value.bytes > MAX_STATIC_FILE_BYTES then Err(StaticTooLarge(s.path))
      else Ok(decoded.value)
  }

  /** The record written for a STATIC section; an existing member keeps its kind, its policy
      and the path of its copy, but not its source path. */
  function StaticRecord(s: Section, decoded: Decoded, statics: map<Path, StaticFile>): StaticFile
    requires s.Static?
  {
    var current :=
      if s.path in statics then statics[s.path]
      else StaticFile(s.kind, LlmEditable, "", 0, "", None, None, None);
    current.(sha256 := decoded.sha256, bytes := decoded.bytes, sourceKind := "generated_artifact",
             sourcePath := None, content := Some(Strip(s.body)))
  }

  /** One round of the interpreter loop. */
  function Step(env: Env, w: Work, s: Section): Result<Work, Error> {
    match s
    case Static(path, _, _) =>
      if path in w.files then Err(TargetExists(path))
      else (match StaticPayload(env, s)
            case Err(e) => Err(e)
            case Ok(decoded) =>
              var record := StaticRecord(s, decoded, w.statics);
              if path in w.statics && w.statics[path] == record then Ok(w)
              else Ok(w.(statics := w.statics[path := record], changed := true)))
    case Delete(path, _) =>
      if path !in w.files then Err(MissingSource(path))
      else if |w.files| == 1 then Err(CannotDeleteLastFile(path))
      else
        Ok(w.(files := w.files - {path},
              primary := if w.primary == Some(path) then None else w.primary,
              changed := true))
    case Move(path, target, _) =>
      if path !in w.files then Err(MissingSource(path))
      else if target in w.files then Err(TargetExists(target))
      else Ok(w.(files := (w.files - {path})[target := w.files[path]],
                 primary := if w.primary == Some(path) then Some(target) else w.primary, changed := true))
    case Primary(_, _) => Ok(w)
    case Edit(path, body) =>
      match env.mutate(Lookup(w.files, path), body)
      case Err(reason) => Err(EditFailed(path, reason))
      case Ok(code) =>
        if path !in w.files || code != w.files[path] then
          Ok(w.(files := w.files[path := code], changed := true))
        else Ok(w)
  }

  function Run(env: Env, w: Work, sections: seq<Section>): Result<Work, Error>
    decreases |sections|
  {
    if sections == [] then Ok(w)
    else match Step(env, w, sections[0])
      case Err(e) => Err(e)
      case Ok(w') => Run(env, w', sections[1..])
  }

  function ExplicitPrimary(sections: seq<Section>): Option<Path> {
    if sections == [] then None
    else if sections[0].Primary? then Some(sections[0].path)
    else ExplicitPrimary(sections[1..])
  }

  function Start(ws: CandidateWorkspace): Work {
    Work(ws.files, ws.statics, Some(ws.primary), false)
  }

  /** What follows the loop: choosing the primary file and the final checks. */
  function Finish(env: Env, ws: CandidateWorkspace, w: Work, explicit: Option<Path>)
    : Result<CandidateWorkspace, Error>
  {
    if explicit.Some? && explicit.value !in w.files then Err(MissingPrimary(explicit.value))
    else if explicit.None? && w.primary.None? then Err(PrimaryDeleted(ws.primary))
    else
      var primary := if explicit.Some? then explicit.value else w.primary.value;
      if !w.changed && w.primary == Some(primary) then Err(NoValidChanges)
      else
        var result := CandidateWorkspace(w.files, primary, w.statics);
        match env.check(result)
        case Some(reason) => Err(Rejected(reason))
        case None => Ok(result)
  }

  /** `apply_workspace_mutation` on parsed sections. */
  function Apply(env: Env, ws: CandidateWorkspace, sections: seq<Section>): Result<CandidateWorkspace, Error> {
    if FindConflict(sections).Some? then Err(FindConflict(sections).value)
    else if FindCommandBody(sections).Some? then Err(FindCommandBody(sections).value)
    else if FindStaticError(sections, ws.statics).Some? then Err(FindStaticError(sections, ws.statics).value)
    else match Run(env, Start(ws), sections)
      case Err(e) => Err(e)
      case Ok(w) => Finish(env, ws, w, ExplicitPrimary(sections))
  }

  /** The interpreter as the program runs it, on variables that it updates. */
  method ApplyWorkspaceMutation(env: Env, ws: CandidateWorkspace, sections: seq<Section>)
    returns (result: Result<CandidateWorkspace, Error>)
    ensures result == Apply(env, ws, sections)
  {
    var conflict := FindSectionPathConflict(sections);
    if conflict.Some? { return Err(conflict.value); }
    var bodyError := FindCommandBody(sections);
    if bodyError.Some? { return Err(bodyError.value); }
    var staticError := FindStaticError(sections, ws.statics);
    if staticError.Some? { return Err(staticError.value); }
    hide FindConflict, FindCommandBody, FindStaticError, StaticPayload, StaticRecord;
    var files, statics, primary, changed := ws.files, ws.statics, Some(ws.primary), false;
    for i := 0 to |sections|
      invariant Run(env, Start(ws), sections) == Run(env, Work(files, statics, primary, changed), sections[i..])
    {
      var s := sections[i];
      assert sections[i..][0] == s && sections[i..][1..] == sections[i + 1..];
      match s {
        case Static(path, _, _) =>
          if path in files { return Err(TargetExists(path)); }
          var decoded := StaticPayload(env, s);
          if decoded.Err? { return Err(decoded.error); }
          var record := StaticRecord(s, decoded.value, statics);
          if path !in statics || record != statics[path] {
            statics, changed := statics[path := record], true;
          }
        case Delete(path, _) =>
          if path !in files { return Err(MissingSource(path)); }
          if |files| == 1 { return Err(CannotDeleteLastFile(path)); }
          files := files - {path};
          if primary == Some(path) { primary := None; }
          changed := true;
        case Move(path, target, _) =>
          if path !in files { return Err(MissingSource(path)); }
          if target in files { return Err(TargetExists(target)); }
          files := (files - {path})[target := files[path]];
          if primary == Some(path) { primary := Some(target); }
          changed := true;
        case Primary(_, _) =>
        case Edit(path, body) =>
          var edited := env.mutate(Lookup(files, path), body);
          if edited.Err? { return Err(EditFailed(path, edited.error)); }
          if path !in files || edited.value != files[path] {
            files, changed := files[path := edited.value], true;
          }
      }
    }
    var explicit := ExplicitPrimary(sections);
    if explicit.Some? {
      if explicit.value !in files { return Err(MissingPrimary(explicit.value)); }
      if primary != explicit {
        primary, changed := explicit, true;
      }
    } else if primary.None? {
      return Err(PrimaryDeleted(ws.primary));
    }
    if !changed { return Err(NoValidChanges); }
    var candidate := CandidateWorkspace(files, primary.value, statics);
    var rejected := env.check(candidate);
    if rejected.Some? { return Err(Rejected(rejected.value)); }
    return Ok(candidate);
  }

  // ----- what a set of sections does, without an order

  /** The section succeeds on the original workspace. */
  predicate Applicable(env: Env, ws: CandidateWorkspace, s: Section) {
    match s
    case Static(path, _, _) => path !in ws.files && StaticPayload(env, s).Ok?
    case Delete(path, _) => path in ws.files
    case Move(path, target, _) => path in ws.files && target !in ws.files
    case Primary(_, _) => true
    case Edit(path, body) => env.mutate(Lookup(ws.files, path), body).Ok?
  }

  /** The section changes something of the original workspace. */
  predicate Changes(env: Env, ws: CandidateWorkspace, s: Section)
    requires Applicable(env, ws, s)
  {
    match s
    case Static(path, _, _) =>
      LookupStatic(ws.statics, path) != Some(StaticAfter(env, ws, s))
    case Primary(_, _) => false
    case Edit(path, body) => Lookup(ws.files, path) != Some(env.mutate(Lookup(ws.files, path), body).value)
    case _ => true
  }

  /** What the section says about the file at `path`: nothing, that it is removed, or its
      new content. */
  datatype Effect = Untouched | Removed | Becomes(content: string)

  function EffectOn(env: Env, ws: CandidateWorkspace, s: Section, path: Path): Effect
    requires Applicable(env, ws, s)
  {
    match s
    case Edit(p, body) => if p == path then Becomes(env.mutate(Lookup(ws.files, p), body).value) else Untouched
    case Delete(p, _) => if p == path then Removed else Untouched
    case Move(p, target, _) => if target == path then Becomes(ws.files[p]) else if p == path then Removed else Untouched
    case _ => Untouched
  }

  function After(effect: Effect, old_: Option<string>): Option<string> {
    match effect
    case Untouched => old_
    case Removed => None
    case Becomes(content) => Some(content)
  }

  predicate TouchesPath(s: Section, path: Path) {
    (s.Edit? || s.Topology()) && (s.path == path || (s.Move? && s.target == path))
  }

  /** The record a STATIC section leaves for its path. */
  function StaticAfter(env: Env, ws: CandidateWorkspace, s: Section): StaticFile
    requires s.Static? && Applicable(env, ws, s)
  {
    StaticRecord(s, StaticPayload(env, s).value, ws.statics)
  }

  function PrimaryAfter(s: Section, primary: Path): Option<Path> {
    if s.Delete? && s.path == primary then None
    else if s.Move? && s.path == primary then Some(s.target)
    else Some(primary)
  }

  /** The files are the original ones with the effect of every section. */
  ghost predicate FilesCombine(env: Env, ws: CandidateWorkspace, ss: set<Section>, files: map<Path, string>)
    requires forall s <- ss :: Applicable(env, ws, s)
  {
    && (forall path, s :: s in ss && TouchesPath(s, path) ==>
          Lookup(files, path) == After(EffectOn(env, ws, s, path), Lookup(ws.files, path)))
    && (forall path :: (forall s <- ss :: !TouchesPath(s, path)) ==> Lookup(files, path) == Lookup(ws.files, path))
  }

  function LookupStatic(statics: map<Path, StaticFile>, path: Path): Option<StaticFile> {
    if path in statics then Some(statics[path]) else None
  }

  ghost predicate StaticsCombine(env: Env, ws: CandidateWorkspace, ss: set<Section>, statics: map<Path, StaticFile>)
    requires forall s <- ss :: Applicable(env, ws, s)
  {
    && (forall s <- ss :: s.Static? ==>
          LookupStatic(statics, s.path) == Some(StaticAfter(env, ws, s)))
    && (forall path :: (forall s <- ss :: s.Static? ==> s.path != path) ==>
          LookupStatic(statics, path) == LookupStatic(ws.statics, path))
  }

  /** Without a PRIMARY section, the primary file follows its move and is lost with it. */
  ghost predicate PrimaryCombines(ws: CandidateWorkspace, ss: set<Section>, primary: Option<Path>) {
    && (forall s <- ss :: PrimaryAfter(s, ws.primary) != Some(ws.primary) ==> primary == PrimaryAfter(s, ws.primary))
    && ((forall s <- ss :: PrimaryAfter(s, ws.primary) == Some(ws.primary)) ==> primary == Some(ws.primary))
  }

  /** `w` is the original workspace with the effects of all sections in `ss` and nothing
      else: the meaning of a mutation as a set of independent changes. */
  ghost predicate Combines(env: Env, ws: CandidateWorkspace, ss: set<Section>, w: Work) {
    && (forall s <- ss :: Applicable(env, ws, s))
    && FilesCombine(env, ws, ss, w.files)
    && StaticsCombine(env, ws, ss, w.statics)
    && PrimaryCombines(ws, ss, w.primary)
    && (w.changed <==> exists s <- ss :: Changes(env, ws, s))
  }

  lemma {:induction false} FilesAreUnique(env: Env, ws: CandidateWorkspace, ss: set<Section>,
                                          v: map<Path, string>, w: map<Path, string>)
    requires forall s <- ss :: Applicable(env, ws, s)
    requires FilesCombine(env, ws, ss, v) && FilesCombine(env, ws, ss, w)
    ensures v == w
  {
    hide Applicable, EffectOn, TouchesPath;
    forall path
      ensures Lookup(v, path) == Lookup(w, path)
    {
      if s :| s in ss && TouchesPath(s, path) {
        assert Lookup(v, path) == After(EffectOn(env, ws, s, path), Lookup(ws.files, path));
      }
    }
    assert forall path :: path in v <==> Lookup(v, path).Some?;
    assert forall path :: path in w <==> Lookup(w, path).Some?;
  }

  lemma {:induction false} StaticsAreUnique(env: Env, ws: CandidateWorkspace, ss: set<Section>,
                                            v: map<Path, StaticFile>, w: map<Path, StaticFile>)
    requires forall s <- ss :: Applicable(env, ws, s)
    requires StaticsCombine(env, ws, ss, v) && StaticsCombine(env, ws, ss, w)
    ensures v == w
  {
    hide StaticRecord, StaticPayload;
    forall path
      ensures LookupStatic(v, path) == LookupStatic(w, path)
    {
      if s :| s in ss && s.Static? && s.path == path {
        assert LookupStatic(v, s.path) == LookupStatic(w, s.path);
      }
    }
    assert forall path :: path in v <==> LookupStatic(v, path).Some?;
    assert forall path :: path in w <==> LookupStatic(w, path).Some?;
  }

  /** The meaning determines the state. */
  lemma {:induction false} CombinesIsUnique(env: Env, ws: CandidateWorkspace, ss: set<Section>, v: Work, w: Work)
    requires Combines(env, ws, ss, v) && Combines(env, ws, ss, w)
    ensures v == w
  {
    hide FilesCombine, StaticsCombine, Applicable, PrimaryAfter, Changes;
    FilesAreUnique(env, ws, ss, v.files, w.files);
    StaticsAreUnique(env, ws, ss, v.statics, w.statics);
    if s :| s in ss && PrimaryAfter(s, ws.primary) != Some(ws.primary) {
      assert v.primary == w.primary;
    }
  }

  // ----- every run computes the combination

  /** No section of `ss` clashes with `s`. */
  predicate Independent(ss: set<Section>, s: Section) {
    forall t <- ss :: !Clash(t, s)
  }

  /** Sections that do not clash with `s` leave the files it reads as they were. */
  lemma {:induction false} OthersDoNotTouch(env: Env, ws: CandidateWorkspace, ss: set<Section>, s: Section,
                                            files: map<Path, string>, path: Path)
    requires Independent(ss, s) && forall t <- ss :: Applicable(env, ws, t)
    requires FilesCombine(env, ws, ss, files)
    requires TouchesPath(s, path) || (s.Static? && s.path == path)
    ensures Lookup(files, path) == Lookup(ws.files, path)
  {
    hide Applicable, EffectOn;
    forall t | t in ss
      ensures !TouchesPath(t, path)
    {
      assert !Clash(t, s);
    }
  }

  /** What a step does to the file at `path`. */
  lemma {:induction false} StepOnFile(env: Env, ws: CandidateWorkspace, w: Work, s: Section, path: Path)
    requires Applicable(env, ws, s) && Step(env, w, s).Ok?
    requires forall p :: TouchesPath(s, p) ==> Lookup(w.files, p) == Lookup(ws.files, p)
    requires s.Move? ==> s.path != s.target
    ensures Lookup(Step(env, w, s).value.files, path) == After(EffectOn(env, ws, s, path), Lookup(w.files, path))
    ensures EffectOn(env, ws, s, path) != Untouched ==> TouchesPath(s, path)
  {
    hide StaticPayload, StaticRecord;
    assert TouchesPath(s, s.path) || s.Static? || s.Primary?;
    assert s.Move? ==> TouchesPath(s, s.target);
    assert Lookup(w.files, s.path) == Lookup(ws.files, s.path) || s.Static? || s.Primary?;
  }

  lemma {:induction false} StepCombinesFiles(env: Env, ws: CandidateWorkspace, ss: set<Section>, w: Work, s: Section)
    requires (forall t <- ss :: Applicable(env, ws, t)) && Applicable(env, ws, s)
    requires FilesCombine(env, ws, ss, w.files)
    requires Independent(ss, s) && Step(env, w, s).Ok? && (s.Move? ==> s.path != s.target)
    ensures FilesCombine(env, ws, ss + {s}, Step(env, w, s).value.files)
  {
    hide Applicable, Step, EffectOn;
    var w' := Step(env, w, s).value;
    forall p | TouchesPath(s, p)
      ensures Lookup(w.files, p) == Lookup(ws.files, p)
    {
      OthersDoNotTouch(env, ws, ss, s, w.files, p);
    }
    forall path
      ensures Lookup(w'.files, path) == After(EffectOn(env, ws, s, path), Lookup(w.files, path))
      ensures EffectOn(env, ws, s, path) != Untouched ==> TouchesPath(s, path)
    {
      StepOnFile(env, ws, w, s, path);
    }
    forall path, t | t in ss + {s} && TouchesPath(t, path)
      ensures Lookup(w'.files, path) == After(EffectOn(env, ws, t, path), Lookup(ws.files, path))
    {
      if t != s {
        assert !Clash(t, s);
        assert !TouchesPath(s, path);
      }
    }
    forall path | forall t <- ss + {s} :: !TouchesPath(t, path)
      ensures Lookup(w'.files, path) == Lookup(ws.files, path)
    {
      assert s in ss + {s};
      assert forall t <- ss :: t in ss + {s};
    }
  }

  lemma {:induction false} StepCombinesStatics(env: Env, ws: CandidateWorkspace, ss: set<Section>, w: Work, s: Section)
    requires (forall t <- ss :: Applicable(env, ws, t)) && Applicable(env, ws, s)
    requires StaticsCombine(env, ws, ss, w.statics)
    requires Independent(ss, s) && Step(env, w, s).Ok?
    ensures StaticsCombine(env, ws, ss + {s}, Step(env, w, s).value.statics)
    ensures s.Static? ==> (w.statics != Step(env, w, s).value.statics <==> Changes(env, ws, s))
  {
    hide StaticPayload;
    var w' := Step(env, w, s).value;
    if s.Static? {
      forall t | t in ss
        ensures t.Static? ==> t.path != s.path
      {
        assert !Clash(t, s);
      }
      assert LookupStatic(w.statics, s.path) == LookupStatic(ws.statics, s.path);
      assert LookupStatic(w'.statics, s.path) == Some(StaticAfter(env, ws, s));
      assert forall path :: path != s.path ==> LookupStatic(w'.statics, path) == LookupStatic(w.statics, path);
    } else {
      assert w'.statics == w.statics;
    }
    forall path | forall t <- ss + {s} :: t.Static? ==> t.path != path
      ensures LookupStatic(w'.statics, path) == LookupStatic(ws.statics, path)
    {
      assert s in ss + {s};
      assert forall t <- ss :: t in ss + {s};
    }
  }

  lemma {:induction false} StepCombinesPrimary(env: Env, ws: CandidateWorkspace, ss: set<Section>, w: Work, s: Section)
    requires PrimaryCombines(ws, ss, w.primary)
    requires Independent(ss, s) && Step(env, w, s).Ok? && (s.Move? ==> s.path != s.target)
    ensures PrimaryCombines(ws, ss + {s}, Step(env, w, s).value.primary)
  {
    hide StaticPayload, StaticRecord;
    var w' := Step(env, w, s).value;
    if PrimaryAfter(s, ws.primary) != Some(ws.primary) {
      forall t | t in ss
        ensures PrimaryAfter(t, ws.primary) == Some(ws.primary)
      {
        assert !Clash(t, s);
      }
      assert w.primary == Some(ws.primary);
    } else if t :| t in ss && PrimaryAfter(t, ws.primary) != Some(ws.primary) {
      assert !Clash(t, s);
      assert w'.primary == w.primary;
    }
    assert forall t :: t in ss + {s} <==> t in ss || t == s;
  }

  /** One step keeps the correspondence between the state and the sections done. */
  lemma {:induction false} StepCombines(env: Env, ws: CandidateWorkspace, ss: set<Section>, w: Work, s: Section)
    requires Combines(env, ws, ss, w) && Independent(ss, s) && (s.Move? ==> s.path != s.target)
    requires Step(env, w, s).Ok?
    ensures Combines(env, ws, ss + {s}, Step(env, w, s).value)
  {
    hide FilesCombine, StaticsCombine, PrimaryCombines, Applicable, Changes, Step, Independent;
    var w' := Step(env, w, s).value;
    StepSucceeds(env, ws, ss, w, s);
    StepCombinesFiles(env, ws, ss, w, s);
    StepCombinesStatics(env, ws, ss, w, s);
    StepCombinesPrimary(env, ws, ss, w, s);
    assert forall t :: t in ss + {s} <==> t in ss || t == s;
    assert w'.changed <==> exists t <- ss + {s} :: Changes(env, ws, t) by {
      if exists t <- ss :: Changes(env, ws, t) {
        var t :| t in ss && Changes(env, ws, t);
        assert t in ss + {s};
      }
    }
  }

  /** A step succeeds exactly when its section applies to the original workspace, except
      for a deletion that meets a single file; it then changes exactly what it would
      have changed there. */
  lemma {:induction false} StepSucceeds(env: Env, ws: CandidateWorkspace, ss: set<Section>, w: Work, s: Section)
    requires Combines(env, ws, ss, w) && Independent(ss, s)
    ensures Step(env, w, s).Ok? <==> Applicable(env, ws, s) && !(s.Delete? && |w.files| == 1)
    ensures Applicable(env, ws, s) && Step(env, w, s).Err? ==> Step(env, w, s) == Err(CannotDeleteLastFile(s.path))
    ensures Step(env, w, s).Ok? ==> (Step(env, w, s).value.changed <==> w.changed || Changes(env, ws, s))
  {
    hide FilesCombine, PrimaryCombines, StaticPayload;
    if !s.Primary? {
      OthersDoNotTouch(env, ws, ss, s, w.files, s.path);
    }
    if s.Move? {
      OthersDoNotTouch(env, ws, ss, s, w.files, s.target);
    }
    if s.Static? {
      forall t | t in ss
        ensures t.Static? ==> t.path != s.path
      {
        assert !Clash(t, s);
      }
      assert LookupStatic(w.statics, s.path) == LookupStatic(ws.statics, s.path);
    }
  }

  function SetOf(sections: seq<Section>): set<Section> {
    set s <- sections
  }

  /** At position `i` the last remaining file would be deleted: the deletions up to there
      name every original file and no section before it created one. */
  predicate EmptiesAt(ws: CandidateWorkspace, sections: seq<Section>, i: nat) {
    && i < |sections| && sections[i].Delete?
    && (forall path <- ws.files :: exists s <- sections[..i + 1] :: s.Delete? && s.path == path)
    && (forall s <- sections[..i] :: s.Edit? ==> s.path in ws.files)
  }

  lemma {:induction false} IndependentOfPrefix(sections: seq<Section>, i: nat)
    requires Compatible(sections) && i < |sections|
    ensures Independent(SetOf(sections[..i]), sections[i])
    ensures SetOf(sections[..i]) + {sections[i]} == SetOf(sections[..i + 1])
  {
    forall t | t in SetOf(sections[..i])
      ensures !Clash(t, sections[i])
    {
      var j :| 0 <= j < i && sections[j] == t;
    }
    assert sections[..i + 1] == sections[..i] + [sections[i]];
  }

  /** A deletion meets a single file exactly at the positions named above. */
  lemma {:induction false} SingleFileMeaning(env: Env, ws: CandidateWorkspace, sections: seq<Section>, i: nat, w: Work)
    requires Compatible(sections) && Parsed(sections) && i < |sections|
    requires Combines(env, ws, SetOf(sections[..i]), w)
    requires sections[i].Delete? && sections[i].path in ws.files
    ensures |w.files| == 1 <==> EmptiesAt(ws, sections, i)
  {
    hide StaticsCombine, PrimaryCombines, Changes;
    var ss, s := SetOf(sections[..i]), sections[i];
    IndependentOfPrefix(sections, i);
    OthersDoNotTouch(env, ws, ss, s, w.files, s.path);
    assert s.path in w.files;
    assert forall t <- ss :: t in sections;
    assert |w.files| == 1 <==> w.files.Keys == {s.path} by { SingletonKeys(w.files, s.path); }
    if w.files.Keys == {s.path} {
      SingleFileOnlyIf(env, ws, sections, i, w);
    }
    if EmptiesAt(ws, sections, i) {
      SingleFileIf(env, ws, sections, i, w);
    }
  }

  lemma {:induction false} SingletonKeys<T>(m: map<Path, T>, path: Path)
    requires path in m
    ensures |m| == 1 <==> m.Keys == {path}
  {
    assert |m| == |m.Keys|;
    if |m| == 1 {
      assert |m.Keys - {path}| == 0;
    }
  }

  lemma {:induction false} SingleFileOnlyIf(env: Env, ws: CandidateWorkspace, sections: seq<Section>, i: nat, w: Work)
    requires Compatible(sections) && Parsed(sections) && i < |sections|
    requires Combines(env, ws, SetOf(sections[..i]), w)
    requires sections[i].Delete? && sections[i].path in ws.files && w.files.Keys == {sections[i].path}
    ensures EmptiesAt(ws, sections, i)
  {
    var s := sections[i];
    IndependentOfPrefix(sections, i);
    hide Combines, Compatible, Parsed, Independent;
    forall path | path in ws.files
      ensures exists t <- sections[..i + 1] :: t.Delete? && t.path == path
    {
      if path == s.path {
        assert s in sections[..i + 1];
      } else {
        var t := DeletedBefore(env, ws, SetOf(sections[..i]), s, w, path);
        assert t in sections[..i + 1];
      }
    }
    forall t | t in sections[..i] && t.Edit?
      ensures t.path in ws.files
    {
      EditedBefore(env, ws, SetOf(sections[..i]), s, w, t);
    }
  }

  /** Before the deletion of the only remaining file, every other original one was deleted. */
  lemma {:induction false} DeletedBefore(
      env: Env, ws: CandidateWorkspace, ss: set<Section>, s: Section, w: Work, path: Path) returns (t: Section)
    requires Combines(env, ws, ss, w) && Independent(ss, s)
    requires s.Delete? && w.files.Keys == {s.path} && path in ws.files && path != s.path
    ensures t in ss && t.Delete? && t.path == path
  {
    hide StaticsCombine, PrimaryCombines, Changes;
    assert Lookup(w.files, path) == None;
    t :| t in ss && TouchesPath(t, path);
    if t.Move? {
      assert TouchesPath(t, t.target);
      assert !Clash(t, s);
    }
  }

  lemma {:induction false} EditedBefore(
      env: Env, ws: CandidateWorkspace, ss: set<Section>, s: Section, w: Work, t: Section)
    requires Combines(env, ws, ss, w) && w.files.Keys == {s.path} && s.path in ws.files
    requires t in ss && t.Edit?
    ensures t.path in ws.files
  {
    hide StaticsCombine, PrimaryCombines, Changes;
    assert TouchesPath(t, t.path);
  }

  lemma {:induction false} SingleFileIf(env: Env, ws: CandidateWorkspace, sections: seq<Section>, i: nat, w: Work)
    requires Compatible(sections) && Parsed(sections)
    requires EmptiesAt(ws, sections, i) && sections[i].path in w.files
    requires Combines(env, ws, SetOf(sections[..i]), w)
    ensures w.files.Keys == {sections[i].path}
  {
    hide StaticsCombine, PrimaryCombines, Changes;
    var ss, s := SetOf(sections[..i]), sections[i];
    forall path | path in w.files
      ensures path == s.path
    {
      if t :| t in ss && TouchesPath(t, path) {
        var deleted := if t.Move? && t.target == path then t.path else path;
        assert deleted in ws.files;
        var d :| d in sections[..i + 1] && d.Delete? && d.path == deleted;
        DifferentDoNotClash(sections, t, d);
      } else {
        assert Lookup(w.files, path) == Lookup(ws.files, path);
        assert path in ws.files;
        var d :| d in sections[..i + 1] && d.Delete? && d.path == path;
        assert d == s || d in ss;
      }
    }
  }

  lemma {:induction false} DifferentDoNotClash(sections: seq<Section>, s: Section, t: Section)
    requires Compatible(sections) && s in sections && t in sections && s != t
    ensures !Clash(s, t)
  {
    var i :| 0 <= i < |sections| && sections[i] == s;
    var j :| 0 <= j < |sections| && sections[j] == t;
    assert !Clash(sections[i], sections[j]) || !Clash(sections[j], sections[i]);
  }

  /** A run either fails or computes the combination of its sections. */
  lemma {:induction false} RunCombines(env: Env, ws: CandidateWorkspace, sections: seq<Section>, i: nat, w: Work)
    requires Compatible(sections) && Parsed(sections) && i <= |sections|
    requires Combines(env, ws, SetOf(sections[..i]), w)
    ensures var r := Run(env, w, sections[i..]);
            r.Ok? ==> Combines(env, ws, SetOf(sections), r.value)
                      && forall j :: i <= j < |sections| ==> !EmptiesAt(ws, sections, j)
    decreases |sections| - i
  {
    hide Combines, Compatible, Step, EmptiesAt, Independent, Clash;
    if i == |sections| {
      assert sections[..i] == sections;
    } else {
      var s := sections[i];
      assert sections[i..][0] == s && sections[i..][1..] == sections[i + 1..];
      assert s in sections;
      IndependentOfPrefix(sections, i);
      if Step(env, w, s).Ok? {
        StepCombines(env, ws, SetOf(sections[..i]), w, s);
        NotEmptied(env, ws, sections, i, w);
        RunCombines(env, ws, sections, i + 1, Step(env, w, s).value);
      }
    }
  }

  lemma {:induction false} NotEmptied(env: Env, ws: CandidateWorkspace, sections: seq<Section>, i: nat, w: Work)
    requires Compatible(sections) && Parsed(sections) && i < |sections|
    requires Combines(env, ws, SetOf(sections[..i]), w) && Step(env, w, sections[i]).Ok?
    ensures !EmptiesAt(ws, sections, i)
  {
    hide Combines, Compatible, Step, EmptiesAt, Independent, Clash;
    IndependentOfPrefix(sections, i);
    StepSucceeds(env, ws, SetOf(sections[..i]), w, sections[i]);
    if sections[i].Delete? {
      SingleFileMeaning(env, ws, sections, i, w);
    } else {
      OnlyDeletionsEmpty(ws, sections, i);
    }
  }

  lemma OnlyDeletionsEmpty(ws: CandidateWorkspace, sections: seq<Section>, i: nat)
    ensures EmptiesAt(ws, sections, i) ==> i < |sections| && sections[i].Delete?
  {
  }

  /** If every section applies to the original workspace, a run can fail only by deleting
      the last file, and does so at the first position where that happens. */
  lemma {:induction false} RunSucceeds(env: Env, ws: CandidateWorkspace, sections: seq<Section>, i: nat, w: Work)
    requires Compatible(sections) && Parsed(sections) && i <= |sections|
    requires Combines(env, ws, SetOf(sections[..i]), w)
    requires forall s <- sections :: Applicable(env, ws, s)
    ensures var r := Run(env, w, sections[i..]);
            r.Err? ==> exists j :: i <= j < |sections| && EmptiesAt(ws, sections, j)
                                   && r == Err(CannotDeleteLastFile(sections[j].path))
    decreases |sections| - i
  {
    hide Combines, Compatible, Step, EmptiesAt, Independent, Clash, Applicable;
    if i < |sections| {
      var s := sections[i];
      assert sections[i..][0] == s && sections[i..][1..] == sections[i + 1..];
      assert s in sections;
      IndependentOfPrefix(sections, i);
      StepSucceeds(env, ws, SetOf(sections[..i]), w, s);
      if Step(env, w, s).Ok? {
        StepCombines(env, ws, SetOf(sections[..i]), w, s);
        RunSucceeds(env, ws, sections, i + 1, Step(env, w, s).value);
      } else {
        DeletedFileExists(env, ws, s);
        SingleFileMeaning(env, ws, sections, i, w);
      }
    }
  }

  lemma DeletedFileExists(env: Env, ws: CandidateWorkspace, s: Section)
    requires s.Delete? && Applicable(env, ws, s)
    ensures s.path in ws.files
  {
  }

  lemma StartCombines(env: Env, ws: CandidateWorkspace)
    ensures Combines(env, ws, {}, Start(ws))
  {
  }

  /** A list of sections that passes the checks runs to the combination of its sections
      exactly when each of them applies to the original workspace and no deletion
      empties it on the way. */
  lemma {:induction false} RunMeaning(env: Env, ws: CandidateWorkspace, sections: seq<Section>)
    requires Compatible(sections) && Parsed(sections)
    ensures var r := Run(env, Start(ws), sections);
            && (r.Ok? <==>
                  && (forall s <- sections :: Applicable(env, ws, s))
                  && forall i: nat :: !EmptiesAt(ws, sections, i))
            && (r.Ok? ==> Combines(env, ws, SetOf(sections), r.value))
            && ((forall s <- sections :: Applicable(env, ws, s)) && r.Err? ==>
                  exists i: nat :: EmptiesAt(ws, sections, i) && r == Err(CannotDeleteLastFile(sections[i].path)))
  {
    hide Compatible, Step, EmptiesAt, Clash, Applicable, FilesCombine, StaticsCombine, PrimaryCombines, Changes, Run;
    StartCombines(env, ws);
    assert sections[..0] == [] && sections[0..] == sections && SetOf([]) == {};
    RunCombines(env, ws, sections, 0, Start(ws));
    if Run(env, Start(ws), sections).Ok? {
      forall i: nat
        ensures !EmptiesAt(ws, sections, i)
      {
        OnlyDeletionsEmpty(ws, sections, i);
      }
    }
    if forall s <- sections :: Applicable(env, ws, s) {
      RunSucceeds(env, ws, sections, 0, Start(ws));
    }
  }

  // ----- the order does not matter

  lemma {:induction false} CompatiblePermutes(xs: seq<Section>, ys: seq<Section>)
    requires multiset(xs) == multiset(ys) && Compatible(xs)
    ensures Compatible(ys) && SetOf(xs) == SetOf(ys)
  {
    hide Clash;
    forall x
      ensures x in xs <==> x in ys
    {
      Sorting.Twice(xs, x);
      Sorting.Twice(ys, x);
    }
    forall i, j | 0 <= i < j < |ys|
      ensures !Clash(ys[i], ys[j])
    {
      if ys[i] != ys[j] {
        DifferentDoNotClash(xs, ys[i], ys[j]);
      } else {
        Sorting.Twice(ys, ys[i]);
        Sorting.Twice(xs, ys[i]);
        var a, b :| 0 <= a < b < |xs| && xs[a] == ys[i] && xs[b] == ys[i];
        assert !Clash(xs[a], xs[b]);
      }
    }
  }

  lemma {:induction false} ExplicitPrimaryMeaning(sections: seq<Section>)
    ensures var p := ExplicitPrimary(sections);
            if p.Some? then exists s <- sections :: s.Primary? && s.path == p.value
            else forall s <- sections :: !s.Primary?
  {
    if sections != [] {
      ExplicitPrimaryMeaning(sections[1..]);
    }
  }

  lemma {:induction false} ExplicitPrimaryPermutes(xs: seq<Section>, ys: seq<Section>)
    requires Compatible(xs) && SetOf(xs) == SetOf(ys)
    ensures ExplicitPrimary(xs) == ExplicitPrimary(ys)
  {
    hide Compatible;
    ExplicitPrimaryMeaning(xs);
    ExplicitPrimaryMeaning(ys);
    assert forall s :: s in xs <==> s in SetOf(xs);
    assert forall s :: s in ys <==> s in SetOf(ys);
    if ExplicitPrimary(xs).Some? && ExplicitPrimary(ys).Some? {
      var s :| s in xs && s.Primary? && s.path == ExplicitPrimary(xs).value;
      var t :| t in ys && t.Primary? && t.path == ExplicitPrimary(ys).value;
      if s != t { DifferentDoNotClash(xs, s, t); }
    }
  }

  /** Confluence: when a list of sections is applied successfully, every permutation of
      it gives the same workspace, unless it deletes the last remaining file on the way.
      That is the only way it can fail; it happens exactly when the deletions name every
      original file and one order performs them before any file is created. */
  lemma {:induction false} SectionOrderDoesNotMatter(
      env: Env, ws: CandidateWorkspace, xs: seq<Section>, ys: seq<Section>)
    requires Parsed(xs) && multiset(xs) == multiset(ys) && Apply(env, ws, xs).Ok?
    ensures (forall i: nat :: !EmptiesAt(ws, ys, i)) ==> Apply(env, ws, ys) == Apply(env, ws, xs)
    ensures forall i: nat :: EmptiesAt(ws, ys, i) ==>
              exists path :: Apply(env, ws, ys) == Err(CannotDeleteLastFile(path))
  {
    hide Compatible, Combines, EmptiesAt, Applicable, Run, StaticRule, FindConflict, FindCommandBody, FindStaticError;
    ConflictCheckMeaning(xs);
    CompatiblePermutes(xs, ys);
    assert forall s :: s in xs <==> s in SetOf(xs);
    assert forall s :: s in ys <==> s in SetOf(ys);
    ConflictCheckMeaning(ys);
    ChecksMeaning(xs, ws.statics);
    ChecksMeaning(ys, ws.statics);
    RunMeaning(env, ws, xs);
    RunMeaning(env, ws, ys);
    ExplicitPrimaryPermutes(xs, ys);
    if Run(env, Start(ws), ys).Ok? {
      CombinesIsUnique(env, ws, SetOf(xs), Run(env, Start(ws), xs).value, Run(env, Start(ws), ys).value);
    }
  }
}
