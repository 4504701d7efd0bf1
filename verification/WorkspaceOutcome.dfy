/** What a whole workspace mutation returns (libreevolve/core/candidate.py, lines 1100-1247),
    from its sections and the original workspace: the result when it succeeds, and exactly
    when each error is returned. */
module WorkspaceOutcome {
  import opened Text
  import opened Workspace

  // ----- the checked run

  /** The sections pass the checks, each of them applies to the original workspace, and no
      deletion empties it on the way. */
  predicate Accepted(env: Env, ws: CandidateWorkspace, sections: seq<Section>) {
    && Compatible(sections)
    && (forall s <- sections :: s.Command() ==> IsBlank(s.body))
    && (forall s <- sections :: StaticRule(s, ws.statics).None?)
    && (forall s <- sections :: Applicable(env, ws, s))
    && NeverEmpties(ws, sections)
  }

  predicate NeverEmpties(ws: CandidateWorkspace, sections: seq<Section>) {
    forall i :: 0 <= i < |sections| ==> !EmptiesAt(ws, sections, i)
  }

  /** Errors that are found after all sections have been carried out. */
  predicate IsLate(e: Error) {
    e.MissingPrimary? || e.PrimaryDeleted? || e.NoValidChanges? || e.Rejected?
  }

  lemma {:induction false} EarlyErrors(sections: seq<Section>, statics: map<Path, StaticFile>)
    ensures FindConflict(sections).Some? ==> !IsLate(FindConflict(sections).value)
    ensures FindCommandBody(sections).Some? ==> !IsLate(FindCommandBody(sections).value)
    ensures FindStaticError(sections, statics).Some? ==> !IsLate(FindStaticError(sections, statics).value)
  {
    hide See, FirstOf;
    ConflictErrors(NOTHING_SEEN, sections);
    if sections != [] { EarlyErrors(sections[1..], statics); }
    hide SeeAll;
  }

  lemma {:induction false} ConflictErrors(seen: Seen, sections: seq<Section>)
    ensures SeeAll(seen, sections).Err? ==> !IsLate(SeeAll(seen, sections).error)
    decreases |sections|
  {
    if sections != [] && See(seen, sections[0]).Ok? {
      ConflictErrors(See(seen, sections[0]).value, sections[1..]);
    }
  }

  lemma {:induction false} RunErrors(env: Env, w: Work, sections: seq<Section>)
    ensures Run(env, w, sections).Err? ==> !IsLate(Run(env, w, sections).error)
    decreases |sections|
  {
    hide StaticRecord;
    if sections != [] && Step(env, w, sections[0]).Ok? {
      RunErrors(env, Step(env, w, sections[0]).value, sections[1..]);
    }
  }

  /** An accepted mutation is carried out to the combination of its sections; one that is not
      accepted fails earlier, with an error of its own. */
  lemma {:induction false} AcceptedIsRun(env: Env, ws: CandidateWorkspace, sections: seq<Section>)
    requires Parsed(sections)
    ensures Accepted(env, ws, sections) ==>
              && Run(env, Start(ws), sections).Ok?
              && Combines(env, ws, SetOf(sections), Run(env, Start(ws), sections).value)
              && Apply(env, ws, sections)
                 == Finish(env, ws, Run(env, Start(ws), sections).value, ExplicitPrimary(sections))
    ensures !Accepted(env, ws, sections) ==>
              Apply(env, ws, sections).Err? && !IsLate(Apply(env, ws, sections).error)
  {
    hide FindConflict, FindCommandBody, FindStaticError, Run, Finish, StaticRule, IsBlank, IsLate;
    hide Compatible, Parsed, EmptiesAt, Applicable, Combines;
    ConflictCheckMeaning(sections);
    ChecksMeaning(sections, ws.statics);
    EarlyErrors(sections, ws.statics);
    RunErrors(env, Start(ws), sections);
    if Compatible(sections) {
      RunMeaning(env, ws, sections);
      EmptiesInRange(ws, sections);
    }
  }

  lemma EmptiesInRange(ws: CandidateWorkspace, sections: seq<Section>)
    ensures forall i: nat :: EmptiesAt(ws, sections, i) ==> i < |sections|
  {
  }

  // ----- the outcome

  /** A PRIMARY section names the path. */
  predicate Names(sections: seq<Section>, path: Path) {
    exists s <- sections :: s.Primary? && s.path == path
  }

  predicate NamesNone(sections: seq<Section>) {
    forall s <- sections :: !s.Primary?
  }

  /** The workspace that the sections describe: their files and static members, and the
      primary file that a PRIMARY section names, else the one that was kept or moved. */
  predicate IsDescribed(sections: seq<Section>, w: Work, result: CandidateWorkspace) {
    && result.files == w.files && result.statics == w.statics
    && (if NamesNone(sections) then w.primary == Some(result.primary)
        else Names(sections, result.primary) && result.primary in w.files)
  }

  /** The final checks refuse the described workspace. */
  ghost predicate IsRefused(env: Env, sections: seq<Section>, w: Work, reason: string) {
    exists result :: IsDescribed(sections, w, result) && env.check(result) == Some(reason)
  }

  /** No section changes anything: what it would leave is there already. */
  ghost predicate ChangesNothing(env: Env, ws: CandidateWorkspace, sections: seq<Section>)
    requires forall s <- sections :: Applicable(env, ws, s)
  {
    forall s <- sections ::
      if s.Primary? then s.path == ws.primary && ws.primary in ws.files else !Changes(env, ws, s)
  }

  lemma {:induction false} NamedIsExplicit(sections: seq<Section>)
    requires Compatible(sections)
    ensures NamesNone(sections) <==> ExplicitPrimary(sections).None?
    ensures forall path :: Names(sections, path) <==> ExplicitPrimary(sections) == Some(path)
  {
    ExplicitPrimaryMeaning(sections);
    hide Compatible;
    var explicit := ExplicitPrimary(sections);
    if explicit.Some? {
      var s :| s in sections && s.Primary? && s.path == explicit.value;
      forall t | t in sections && t.Primary? ensures t.path == explicit.value {
        if s != t { DifferentDoNotClash(sections, s, t); }
      }
    }
  }

  /** When no section changes anything, the files and the primary file are the original ones. */
  lemma {:induction false} UnchangedIsSame(env: Env, ws: CandidateWorkspace, ss: set<Section>, w: Work)
    requires Combines(env, ws, ss, w) && !w.changed
    ensures w.primary == Some(ws.primary)
    ensures forall path :: Lookup(w.files, path) == Lookup(ws.files, path)
  {
    hide StaticsCombine, StaticAfter;
    forall s | s in ss ensures !s.Topology() && !Changes(env, ws, s) {}
    forall path ensures Lookup(w.files, path) == Lookup(ws.files, path) {
      if s :| s in ss && TouchesPath(s, path) {
        assert s.Edit? && !Changes(env, ws, s);
      }
    }
  }

  lemma InOriginal(files: map<Path, string>, before: map<Path, string>, path: Path)
    requires Lookup(files, path) == Lookup(before, path)
    ensures path in files <==> path in before
  {
  }

  /** A mutation changes nothing exactly when its combination is unchanged and no other
      primary file is named. */
  lemma {:induction false} ChangedMeaning(env: Env, ws: CandidateWorkspace, sections: seq<Section>, w: Work)
    requires Compatible(sections) && Combines(env, ws, SetOf(sections), w)
    ensures ChangesNothing(env, ws, sections) <==>
              !w.changed && if NamesNone(sections) then w.primary.Some?
                            else Names(sections, ws.primary) && w.primary == Some(ws.primary) && ws.primary in w.files
  {
    hide FilesCombine, StaticsCombine, PrimaryCombines, Applicable, Compatible, Clash;
    NamedIsExplicit(sections);
    hide ExplicitPrimary;
    assert forall s :: s in sections <==> s in SetOf(sections);
    forall s | s in sections && s.Primary? ensures Names(sections, s.path) && !Changes(env, ws, s) {}
    if !w.changed {
      UnchangedIsSame(env, ws, SetOf(sections), w);
      InOriginal(w.files, ws.files, ws.primary);
    }
  }

  /** The outcome of a mutation.  A mutation that is not accepted has an early error.  For an
      accepted one, with w the combination of its sections: a named primary file that is not
      there is missing; without a name a deleted one is an error; a mutation that changes
      nothing is one; the final checks may refuse the described workspace; and otherwise
      that workspace is the result. */
  lemma {:induction false} OutcomeMeaning(env: Env, ws: CandidateWorkspace, sections: seq<Section>, w: Work)
    requires Parsed(sections) && Accepted(env, ws, sections) && Combines(env, ws, SetOf(sections), w)
    ensures var r := Apply(env, ws, sections);
            && (forall path :: r == Err(MissingPrimary(path)) <==> Names(sections, path) && path !in w.files)
            && (forall path :: r == Err(PrimaryDeleted(path)) <==>
                                 NamesNone(sections) && w.primary == None && path == ws.primary)
            && (r == Err(NoValidChanges) <==> ChangesNothing(env, ws, sections))
            && (forall reason :: r == Err(Rejected(reason)) ==>
                                   && !ChangesNothing(env, ws, sections)
                                   && IsRefused(env, sections, w, reason))
            && (r.Ok? ==> IsDescribed(sections, w, r.value) && env.check(r.value) == None)
            && (r.Err? ==> IsLate(r.error))
  {
    hide FindConflict, FindCommandBody, FindStaticError, Run, StaticRule, IsBlank, Compatible, Parsed, EmptiesAt;
    hide Applicable, FilesCombine, StaticsCombine, PrimaryCombines, Changes;
    AcceptedIsRun(env, ws, sections);
    CombinesIsUnique(env, ws, SetOf(sections), w, Run(env, Start(ws), sections).value);
    NamedIsExplicit(sections);
    ChangedMeaning(env, ws, sections, w);
    if !w.changed { UnchangedIsSame(env, ws, SetOf(sections), w); }
    var explicit := ExplicitPrimary(sections);
    if explicit.Some? || w.primary.Some? {
      var result := CandidateWorkspace(w.files, if explicit.Some? then explicit.value else w.primary.value, w.statics);
      assert explicit.Some? ==> Names(sections, explicit.value);
      assert (explicit.Some? ==> explicit.value in w.files) ==> IsDescribed(sections, w, result);
    }
    hide ExplicitPrimary;
  }

  // ----- what stops a run

  /** Why a section does not apply to the original workspace. */
  predicate IsRefusal(env: Env, ws: CandidateWorkspace, s: Section, e: Error) {
    match e
    case TargetExists(path) =>
      && path in ws.files
      && ((s.Static? && path == s.path) || (s.Move? && path == s.target && s.path in ws.files))
    case BlankStaticContent(path) => s.Static? && path == s.path && path !in ws.files && Strip(s.body) == ""
    case InvalidBase64(path) =>
      s.Static? && path == s.path && path !in ws.files && Strip(s.body) != "" && env.decode(Strip(s.body)).None?
    case StaticTooLarge(path) =>
      && s.Static? && path == s.path && path !in ws.files && Strip(s.body) != ""
      && env.decode(Strip(s.body)).Some? && env.decode(Strip(s.body)).value.bytes > MAX_STATIC_FILE_BYTES
    case MissingSource(path) => s.Topology() && path == s.path && path !in ws.files
    case EditFailed(path, reason) =>
      s.Edit? && path == s.path && env.mutate(Lookup(ws.files, path), s.body) == Err(reason)
    case _ => false
  }

  /** The sections from i on are carried out up to number j, which does not apply to the
      original workspace for the reason e, or deletes its last file. */
  predicate StopsAt(env: Env, ws: CandidateWorkspace, sections: seq<Section>, i: nat, j: nat, e: Error) {
    && i <= j < |sections|
    && (forall k :: i <= k < j ==> Applicable(env, ws, sections[k]) && !EmptiesAt(ws, sections, k))
    && if Applicable(env, ws, sections[j])
       then EmptiesAt(ws, sections, j) && e == CannotDeleteLastFile(sections[j].path)
       else IsRefusal(env, ws, sections[j], e)
  }

  /** A run that fails stops at the first section that does not apply to the original
      workspace or deletes the last file, and its error is the reason. */
  lemma {:induction false} FirstRefusal(env: Env, ws: CandidateWorkspace, sections: seq<Section>, i: nat, w: Work)
    requires Compatible(sections) && Parsed(sections) && i <= |sections|
    requires Combines(env, ws, SetOf(sections[..i]), w)
    ensures var r := Run(env, w, sections[i..]);
            r.Err? ==> exists j :: StopsAt(env, ws, sections, i, j, r.error)
    decreases |sections| - i
  {
    hide Combines, Compatible, Step, EmptiesAt, Independent, Clash, Applicable, IsRefusal;
    if i < |sections| {
      var s := sections[i];
      assert sections[i..][0] == s && sections[i..][1..] == sections[i + 1..];
      IndependentOfPrefix(sections, i);
      StepSucceeds(env, ws, SetOf(sections[..i]), w, s);
      if Step(env, w, s).Ok? {
        StepCombines(env, ws, SetOf(sections[..i]), w, s);
        NotEmptied(env, ws, sections, i, w);
        var next := Step(env, w, s).value;
        FirstRefusal(env, ws, sections, i + 1, next);
        var r := Run(env, next, sections[i + 1..]);
        if r.Err? {
          var j :| StopsAt(env, ws, sections, i + 1, j, r.error);
          assert StopsAt(env, ws, sections, i, j, r.error);
        }
      } else {
        if Applicable(env, ws, s) {
          DeletedFileExists(env, ws, s);
          SingleFileMeaning(env, ws, sections, i, w);
        } else {
          StepRefusal(env, ws, SetOf(sections[..i]), w, s);
        }
        assert StopsAt(env, ws, sections, i, i, Step(env, w, s).error);
      }
    }
  }

  lemma {:induction false} StepRefusal(env: Env, ws: CandidateWorkspace, ss: set<Section>, w: Work, s: Section)
    requires Combines(env, ws, ss, w) && Independent(ss, s)
    requires !Applicable(env, ws, s) && Step(env, w, s).Err?
    ensures IsRefusal(env, ws, s, Step(env, w, s).error)
  {
    hide FilesCombine, PrimaryCombines, StaticsCombine, Independent, Strip;
    if !s.Primary? { OthersDoNotTouch(env, ws, ss, s, w.files, s.path); }
    if s.Move? { OthersDoNotTouch(env, ws, ss, s, w.files, s.target); }
  }

  /** The same for a whole mutation that has passed the checks. */
  lemma {:induction false} RefusalMeaning(env: Env, ws: CandidateWorkspace, sections: seq<Section>)
    requires Compatible(sections) && Parsed(sections) && Run(env, Start(ws), sections).Err?
    ensures exists j :: StopsAt(env, ws, sections, 0, j, Run(env, Start(ws), sections).error)
  {
    hide Combines, Compatible, Run;
    StartCombines(env, ws);
    assert sections[..0] == [] && sections[0..] == sections && SetOf([]) == {};
    FirstRefusal(env, ws, sections, 0, Start(ws));
  }

  // ----- static members

  /** After a successful mutation every STATIC section has left its content, with the size and
      the hash of what it decodes to, in a member that may be edited again and that keeps the
      kind it had; every other static member is as before. */
  lemma {:induction false} StaticMembersAfter(env: Env, ws: CandidateWorkspace, sections: seq<Section>, s: Section)
    requires Parsed(sections) && Apply(env, ws, sections).Ok? && s in sections && s.Static?
    ensures var statics, decoded := Apply(env, ws, sections).value.statics, env.decode(Strip(s.body));
            && s.path in statics && decoded.Some?
            && statics[s.path].content == Some(Strip(s.body)) && statics[s.path].sourcePath == None
            && statics[s.path].sha256 == decoded.value.sha256
            && statics[s.path].bytes == decoded.value.bytes <= MAX_STATIC_FILE_BYTES
            && statics[s.path].policy == LlmEditable
            && statics[s.path].kind == (if s.path in ws.statics then ws.statics[s.path].kind else s.kind)
    ensures forall path :: (forall t <- sections :: t.Static? ==> t.path != path) ==>
              LookupStatic(Apply(env, ws, sections).value.statics, path) == LookupStatic(ws.statics, path)
  {
    hide FindConflict, FindCommandBody, FindStaticError, Run, Compatible, Parsed, EmptiesAt;
    hide FilesCombine, PrimaryCombines, Changes, ExplicitPrimary, Strip, IsBlank;
    AcceptedIsRun(env, ws, sections);
    assert forall t :: t in sections <==> t in SetOf(sections);
    assert Accepted(env, ws, sections);
    assert StaticRule(s, ws.statics).None? && Applicable(env, ws, s);
    var w := Run(env, Start(ws), sections).value;
    assert LookupStatic(w.statics, s.path) == Some(StaticAfter(env, ws, s));
  }

  // ----- the errors of the checks

  /** The paths a section names. */
  function NamedPaths(s: Section): set<Path> {
    {s.path} + if s.Move? then {s.target} else {}
  }

  /** A section may be used beside the static members exactly when each of them that it names
      is editable and it is a STATIC section; the error says whether one is protected. */
  lemma {:induction false} StaticRuleMeaning(s: Section, statics: map<Path, StaticFile>)
    ensures StaticRule(s, statics).None? <==>
              forall p <- NamedPaths(s) :: p in statics ==> statics[p].policy == LlmEditable && s.Static?
    ensures StaticRule(s, statics).Some? ==>
              match StaticRule(s, statics).value
              case StaticMemberProtected(p) => p in NamedPaths(s) && p in statics && statics[p].policy != LlmEditable
              case StaticEditingNotSupported(p) =>
                p in NamedPaths(s) && p in statics && statics[p].policy == LlmEditable && !s.Static?
              case _ => false
  {
    assert s.path in NamedPaths(s) && (s.Move? ==> s.target in NamedPaths(s));
  }

  predicate HasStrayBody(s: Section) {
    s.Command() && !IsBlank(s.body)
  }

  /** The two checks report the first section that breaks their rule. */
  lemma {:induction false} FirstOffender(sections: seq<Section>, statics: map<Path, StaticFile>)
    ensures FindCommandBody(sections).Some? ==>
              exists i :: 0 <= i < |sections| && HasStrayBody(sections[i])
                          && (forall k :: 0 <= k < i ==> !HasStrayBody(sections[k]))
                          && FindCommandBody(sections) == Some(UnexpectedCommandBody(sections[i].path))
    ensures FindStaticError(sections, statics).Some? ==>
              exists i :: 0 <= i < |sections| && StaticRule(sections[i], statics) == FindStaticError(sections, statics)
                          && (forall k :: 0 <= k < i ==> StaticRule(sections[k], statics).None?)
  {
    hide IsBlank, StaticRule;
    if sections != [] {
      var rest := sections[1..];
      FirstOffender(rest, statics);
      if !HasStrayBody(sections[0]) && FindCommandBody(sections).Some? {
        var i :| 0 <= i < |rest| && HasStrayBody(rest[i])
                 && (forall k :: 0 <= k < i ==> !HasStrayBody(rest[k]))
                 && FindCommandBody(rest) == Some(UnexpectedCommandBody(rest[i].path));
        assert HasStrayBody(sections[i + 1]);
        forall k | 0 <= k < i + 1 ensures !HasStrayBody(sections[k]) {
          if k > 0 { assert !HasStrayBody(rest[k - 1]); }
        }
      }
      if StaticRule(sections[0], statics).None? && FindStaticError(sections, statics).Some? {
        var i :| 0 <= i < |rest| && StaticRule(rest[i], statics) == FindStaticError(rest, statics)
                 && (forall k :: 0 <= k < i ==> StaticRule(rest[k], statics).None?);
        assert StaticRule(sections[i + 1], statics) == FindStaticError(sections, statics);
        forall k | 0 <= k < i + 1 ensures StaticRule(sections[k], statics).None? {
          if k > 0 { assert StaticRule(rest[k - 1], statics).None?; }
        }
      }
    }
  }

  /** The error names what section b repeats of an earlier one. */
  predicate IsDuplicate(a: Section, b: Section, e: Error) {
    match e
    case DuplicatePrimary => a.Primary? && b.Primary?
    case DuplicateFileSection(path) => a.EditLike() && b.EditLike() && a.path == b.path == path
    case DuplicateTopology(path) => a.Topology() && b.Topology() && a.path == b.path == path
    case DuplicateMoveTarget(path) => a.Move? && b.Move? && a.target == b.target == path
    case _ => false
  }

  /** A duplicate is reported for the first section that repeats an earlier one. */
  lemma {:induction false} FirstDuplicate(sections: seq<Section>, i: nat, seen: Seen)
    requires i <= |sections|
    requires forall a, b :: 0 <= a < b < i ==> !Duplicated(sections[a], sections[b])
    requires seen.edits == EditPaths(sections[..i]) && seen.sources == Sources(sections[..i])
    requires seen.targets == Targets(sections[..i])
    requires seen.primaries >= 1 <==> exists s <- sections[..i] :: s.Primary?
    ensures SeeAll(seen, sections[i..]).Err? ==>
              exists a, b :: 0 <= a < b < |sections|
                             && IsDuplicate(sections[a], sections[b], SeeAll(seen, sections[i..]).error)
                             && forall c, d :: 0 <= c < d < b ==> !Duplicated(sections[c], sections[d])
    decreases |sections| - i
  {
    hide See, Duplicated, EditPaths, Sources, Targets, IsDuplicate;
    if i < |sections| {
      var s := sections[i];
      assert sections[i..][0] == s && sections[i..][1..] == sections[i + 1..];
      assert sections[..i + 1] == sections[..i] + [s];
      SeeOne(sections[..i], s, seen);
      match See(seen, s)
      case Err(e) =>
        var t := Repeats(sections[..i], s, seen);
        var a :| 0 <= a < i && sections[a] == t;
        assert IsDuplicate(sections[a], sections[i], e);
      case Ok(seen') =>
        forall a, b | 0 <= a < b < i + 1
          ensures !Duplicated(sections[a], sections[b])
        {
          assert b == i ==> sections[a] in sections[..i];
        }
        FirstDuplicate(sections, i + 1, seen');
    }
  }

  lemma {:induction false} Repeats(before: seq<Section>, s: Section, seen: Seen) returns (t: Section)
    requires seen.edits == EditPaths(before) && seen.sources == Sources(before) && seen.targets == Targets(before)
    requires seen.primaries >= 1 <==> exists t <- before :: t.Primary?
    requires See(seen, s).Err?
    ensures t in before && IsDuplicate(t, s, See(seen, s).error)
  {
    match See(seen, s).error
    case DuplicatePrimary => t :| t in before && t.Primary?;
    case DuplicateFileSection(path) => t :| t in before && t.EditLike() && t.path == path;
    case DuplicateTopology(path) => t :| t in before && t.Topology() && t.path == path;
    case DuplicateMoveTarget(path) => t :| t in before && t.Move? && t.target == path;
  }

  /** The order of the checks: conflicts, then command bodies, then static members. */
  lemma {:induction false} CheckOrder(env: Env, ws: CandidateWorkspace, sections: seq<Section>)
    requires Parsed(sections)
    ensures var r := Apply(env, ws, sections);
            && (!Compatible(sections) ==>
                  r.Err? && Some(r.error) == FindConflict(sections)
                  && (r.error.ConflictingOperations?
                      || exists a, b :: 0 <= a < b < |sections| && IsDuplicate(sections[a], sections[b], r.error)
                                        && forall c, d :: 0 <= c < d < b ==> !Duplicated(sections[c], sections[d])))
            && (Compatible(sections) && (exists s <- sections :: HasStrayBody(s)) ==>
                  r.Err? && r.error.UnexpectedCommandBody?)
            && (Compatible(sections) && (forall s <- sections :: !HasStrayBody(s))
                && (exists s <- sections :: StaticRule(s, ws.statics).Some?) ==>
                  r.Err? && (r.error.StaticMemberProtected? || r.error.StaticEditingNotSupported?))
  {
    hide Run, Finish, IsBlank, Compatible, Parsed, Duplicated, IsDuplicate, See;
    hide FindCommandBody, FindStaticError, StaticRule;
    ConflictCheckMeaning(sections);
    ChecksMeaning(sections, ws.statics);
    FirstOffender(sections, ws.statics);
    assert sections[0..] == sections;
    NothingSeen(sections);
    FirstDuplicate(sections, 0, NOTHING_SEEN);
    forall s | s in sections && StaticRule(s, ws.statics).Some?
      ensures var e := StaticRule(s, ws.statics).value; e.StaticMemberProtected? || e.StaticEditingNotSupported?
    {
      StaticRuleMeaning(s, ws.statics);
    }
  }
}
