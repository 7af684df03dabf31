/**
 * The project store (src/lib/store.ts): the list of projects and its
 * reducers, what is written to storage (`partialize`), and what happens
 * when it is read back (`onRehydrateStorage`).
 *
 * The template builder `buildFiles` and the clock are parameters: `build`
 * maps a project to its template files, and `Clock` gives the current
 * time in milliseconds and its ISO rendering.
 */
module Store {
  import opened Wrappers
  import opened Text
  import opened Types

  /** The persisted part of the store. */
  datatype State = State(projects: seq<Project>, seeded: bool)

  /** `Date.now()` and `new Date(ms).toISOString()`. */
  datatype Clock = Clock(now: nat, iso: int -> string)

  type Builder = Project -> seq<OutputFile>

  const DemoIds: seq<string> := ["demo1", "demo2"]
  const Initialising: string := "Initialising\U{2026}"
  const InitialPct: int := 2

  /** `p.id === id` holds for no project of the list. */
  predicate FreeId(ps: seq<Project>, id: string) {
    forall i :: 0 <= i < |ps| ==> ps[i].id != id
  }

  /** A finished project: `done`, no progress shown. */
  function Finished(p: Project, files: seq<OutputFile>): (q: Project)
    ensures q.status == Done && q.files == files && q.progressMessage.None? && q.progressPct.None?
  {
    p.(status := Done, files := files, progressMessage := None, progressPct := None)
  }

  /** Two projects that differ at most in the fields a reducer may touch. */
  predicate SameIdentity(p: Project, q: Project) {
    p.id == q.id && p.name == q.name && p.client == q.client && p.mode == q.mode
    && p.source == q.source && p.figmaToken == q.figmaToken && p.createdAt == q.createdAt
  }

  // ---------------------------------------------------------------------
  // Demos
  // ---------------------------------------------------------------------

  function Demo(build: Builder, id: string, name: string, client: string, mode: ProjectMode, source: string, created: string): Project {
    var p := Project(id, name, client, mode, source, None, created, Done, [], None, None, None);
    p.(files := build(p))
  }

  /** `makeDemos()`: two finished projects with template files. */
  function MakeDemos(build: Builder, clock: Clock): (r: seq<Project>)
    ensures |r| == 2 && r[0].id == DemoIds[0] && r[1].id == DemoIds[1]
    ensures forall i :: 0 <= i < 2 ==> r[i].status == Done && r[i].files == build(r[i].(files := []))
  {
    [ Demo(build, "demo1", "Acme Corp Site", "Acme Corp", FigmaMode, "https://figma.com/file/demo123", clock.iso(clock.now - 7200000)),
      Demo(build, "demo2", "Barlow Rebuild", "Barlow & Co", UrlMode, "https://old.barlow.co", clock.iso(clock.now - 86400000)) ]
  }

  // ---------------------------------------------------------------------
  // Reducers
  // ---------------------------------------------------------------------

  /** `addProject(partial)`: the new project and its id `'p' + Date.now()`. */
  function AddProject(ps: seq<Project>, partial: Project, clock: Clock): (r: (seq<Project>, string))
    ensures |r.0| == |ps| + 1 && r.0[1..] == ps
  {
    var id := "p" + NatToString(clock.now);
    var p := partial.(id := id, createdAt := clock.iso(clock.now), status := Generating,
                      progressMessage := Some(Initialising), progressPct := Some(InitialPct), files := []);
    ([p] + ps, id)
  }

  /** Every project with the id gets `f`, the others stay as they are. */
  function MapId(ps: seq<Project>, id: string, f: Project -> Project): (r: seq<Project>)
    ensures |r| == |ps|
    ensures forall i :: 0 <= i < |ps| ==> r[i] == (if ps[i].id == id then f(ps[i]) else ps[i])
  {
    seq(|ps|, i requires 0 <= i < |ps| => if ps[i].id == id then f(ps[i]) else ps[i])
  }

  function SetProjectProgress(ps: seq<Project>, id: string, message: string, pct: int): seq<Project> {
    MapId(ps, id, (p: Project) => p.(progressMessage := Some(message), progressPct := Some(pct)))
  }

  function CompleteProjectWithFiles(ps: seq<Project>, id: string, files: seq<OutputFile>): seq<Project> {
    MapId(ps, id, (p: Project) => Finished(p, files))
  }

  function CompleteProject(ps: seq<Project>, id: string, build: Builder): seq<Project> {
    MapId(ps, id, (p: Project) => Finished(p, build(p)))
  }

  function FailProject(ps: seq<Project>, id: string, error: string, build: Builder): seq<Project> {
    MapId(ps, id, (p: Project) => Finished(p, build(p)).(error := Some(error)))
  }

  /** `projects.filter(p => p.id !== id)`. */
  function DeleteProject(ps: seq<Project>, id: string): (r: seq<Project>)
    ensures |r| <= |ps|
    ensures forall p :: p in r <==> p in ps && p.id != id
  {
    if ps == [] then []
    else (if ps[0].id != id then [ps[0]] else []) + DeleteProject(ps[1..], id)
  }

  /**
   * The new project comes first, still generating at 2 % with no files, and
   * keeps what the caller gave; the previous list follows unchanged.
   */
  lemma AddProjectSpec(ps: seq<Project>, partial: Project, clock: Clock)
    ensures var (r, id) := AddProject(ps, partial, clock);
      && r == [r[0]] + ps
      && r[0].id == id && StartsWith(id, "p") && All(id[1..], IsDigit)
      && r[0].status == Generating && r[0].progressPct == Some(InitialPct) && r[0].files == []
      && r[0].name == partial.name && r[0].client == partial.client && r[0].mode == partial.mode
      && r[0].source == partial.source && r[0].figmaToken == partial.figmaToken && r[0].error == partial.error
  {
    var (r, id) := AddProject(ps, partial, clock);
    assert id[1..] == NatToString(clock.now);
  }

  /**
   * Progress touches only the progress of the projects with the id: the
   * length, the order and every other field stay as they were.
   */
  lemma SetProjectProgressSpec(ps: seq<Project>, id: string, message: string, pct: int)
    ensures var r := SetProjectProgress(ps, id, message, pct);
      && |r| == |ps|
      && (forall i :: 0 <= i < |ps| && ps[i].id != id ==> r[i] == ps[i])
      && (forall i :: 0 <= i < |ps| && ps[i].id == id ==>
            && r[i].progressMessage == Some(message) && r[i].progressPct == Some(pct)
            && r[i].(progressMessage := ps[i].progressMessage, progressPct := ps[i].progressPct) == ps[i])
  {
  }

  /**
   * Completion and failure: a project with the id is `done` without
   * progress, with the given files or its template files, and a failure
   * records its message; its identity is kept, and the others are
   * unchanged.
   */
  lemma FinishSpec(ps: seq<Project>, id: string, files: seq<OutputFile>, error: string, build: Builder)
    ensures var r := CompleteProjectWithFiles(ps, id, files);
      |r| == |ps| && forall i :: 0 <= i < |ps| ==>
        if ps[i].id == id then r[i].status == Done && r[i].files == files && r[i].progressPct.None?
          && r[i].progressMessage.None? && SameIdentity(r[i], ps[i]) && r[i].error == ps[i].error
        else r[i] == ps[i]
    ensures var r := CompleteProject(ps, id, build);
      |r| == |ps| && forall i :: 0 <= i < |ps| ==>
        if ps[i].id == id then r[i].status == Done && r[i].files == build(ps[i]) && r[i].progressPct.None?
          && r[i].progressMessage.None? && SameIdentity(r[i], ps[i]) && r[i].error == ps[i].error
        else r[i] == ps[i]
    ensures var r := FailProject(ps, id, error, build);
      |r| == |ps| && forall i :: 0 <= i < |ps| ==>
        if ps[i].id == id then r[i].status == Done && r[i].files == build(ps[i]) && r[i].progressPct.None?
          && r[i].progressMessage.None? && SameIdentity(r[i], ps[i]) && r[i].error == Some(error)
        else r[i] == ps[i]
  {
  }

  /** Deleting keeps the other projects in their order: what is left is a subsequence of the list. */
  predicate Subsequence(r: seq<Project>, ps: seq<Project>)
    decreases |ps|
  {
    if r == [] then true
    else if ps == [] then false
    else if r[0] == ps[0] then Subsequence(r[1..], ps[1..])
    else Subsequence(r, ps[1..])
  }

  /** Skipping one more element of the longer list keeps a subsequence one. */
  lemma {:induction false} SubsequenceSkip(r: seq<Project>, ps: seq<Project>)
    requires ps != [] && Subsequence(r, ps[1..])
    ensures Subsequence(r, ps)
    decreases |ps|, 0
  {
    if r != [] && r[0] == ps[0] {
      SubsequenceTail(r, ps[1..]);
    }
  }

  lemma {:induction false} SubsequenceTail(r: seq<Project>, ps: seq<Project>)
    requires r != [] && Subsequence(r, ps)
    ensures Subsequence(r[1..], ps)
    decreases |ps|, 1
  {
    if r[0] == ps[0] {
      if r[1..] != [] {
        SubsequenceSkip(r[1..], ps);
      }
    } else {
      SubsequenceTail(r, ps[1..]);
      SubsequenceSkip(r[1..], ps);
    }
  }

  lemma {:induction false} DeleteProjectOrder(ps: seq<Project>, id: string)
    ensures Subsequence(DeleteProject(ps, id), ps) && FreeId(DeleteProject(ps, id), id)
    decreases |ps|
  {
    if ps != [] {
      DeleteProjectOrder(ps[1..], id);
      var rest := DeleteProject(ps[1..], id);
      if ps[0].id != id {
        assert DeleteProject(ps, id) == [ps[0]] + rest;
        assert ([ps[0]] + rest)[1..] == rest;
      } else {
        assert DeleteProject(ps, id) == rest;
        SubsequenceSkip(rest, ps);
      }
      assert forall i :: 0 <= i < |DeleteProject(ps, id)| ==> DeleteProject(ps, id)[i] in DeleteProject(ps, id);
    }
  }

  /** Deleting an id that is not there changes nothing. */
  lemma {:induction false} DeleteAbsent(ps: seq<Project>, id: string)
    requires FreeId(ps, id)
    ensures DeleteProject(ps, id) == ps
    decreases |ps|
  {
    if ps != [] {
      DeleteAbsent(ps[1..], id);
      assert [ps[0]] + ps[1..] == ps;
    }
  }

  /** Adding a project and deleting it again gives back the list, when its id was new. */
  lemma AddThenDelete(ps: seq<Project>, partial: Project, clock: Clock)
    requires FreeId(ps, "p" + NatToString(clock.now))
    ensures var (r, id) := AddProject(ps, partial, clock);
      DeleteProject(r, id) == ps
  {
    var (r, id) := AddProject(ps, partial, clock);
    assert r[1..] == ps;
    DeleteAbsent(ps, id);
  }

  // ---------------------------------------------------------------------
  // Persistence
  // ---------------------------------------------------------------------

  /** A project as written to storage: no token, no progress, file contents emptied. */
  function Persisted(p: Project): Project {
    p.(figmaToken := None, progressMessage := None, progressPct := None,
       files := seq(|p.files|, i requires 0 <= i < |p.files| => p.files[i].(content := "")))
  }

  /** `partialize`. */
  function Partialize(s: State): (r: State)
    ensures r.seeded == s.seeded && |r.projects| == |s.projects|
  {
    State(seq(|s.projects|, i requires 0 <= i < |s.projects| => Persisted(s.projects[i])), s.seeded)
  }

  /** `p.files.every(f => !f.content)`. */
  predicate ContentsEmpty(files: seq<OutputFile>) {
    forall i :: 0 <= i < |files| ==> files[i].content == []
  }

  /**
   * What is stored holds no token, no progress and no file content; ids,
   * names, statuses and file names are kept, and storing twice stores the
   * same.
   */
  lemma PartializeSpec(s: State)
    ensures var r := Partialize(s);
      && r.seeded == s.seeded && |r.projects| == |s.projects|
      && (forall i :: 0 <= i < |s.projects| ==>
            var p := s.projects[i];
            var q := r.projects[i];
            && q.figmaToken.None? && q.progressMessage.None? && q.progressPct.None? && ContentsEmpty(q.files)
            && q.id == p.id && q.name == p.name && q.status == p.status && q.error == p.error
            && |q.files| == |p.files|
            && (forall k :: 0 <= k < |p.files| ==> q.files[k].name == p.files[k].name && q.files[k].fileType == p.files[k].fileType))
      && Partialize(r) == r
  {
    var r := Partialize(s);
    assert forall i :: 0 <= i < |s.projects| ==> Persisted(r.projects[i]) == r.projects[i];
  }

  /** The first pass of a rehydration over one project. */
  function Restore(p: Project, build: Builder): (q: Project)
    ensures q.status == Done || q == p
  {
    if p.status == Generating then Finished(p, build(p))
    else if p.status == Done && ContentsEmpty(p.files) then p.(files := build(p))
    else p
  }

  /** The second pass: demo projects with empty contents get fresh template files. */
  function RefreshDemo(p: Project, build: Builder): Project {
    if p.id in DemoIds && ContentsEmpty(p.files) then p.(files := build(p)) else p
  }

  /** `onRehydrateStorage` on a stored state; no stored state is left alone. */
  function Rehydrate(s: Option<State>, build: Builder, clock: Clock): Option<State> {
    match s
    case None => None
    case Some(st) =>
      if !st.seeded then Some(State(MakeDemos(build, clock), true))
      else
        var restored := seq(|st.projects|, i requires 0 <= i < |st.projects| => Restore(st.projects[i], build));
        Some(State(seq(|restored|, i requires 0 <= i < |restored| => RefreshDemo(restored[i], build)), true))
  }

  /**
   * Rehydration: an unseeded store becomes the two demos and is seeded;
   * otherwise every project keeps its place and identity, none is left
   * generating, and a finished project whose contents were all emptied
   * has its template files.
   */
  lemma RehydrateSpec(st: State, build: Builder, clock: Clock)
    ensures var r := Rehydrate(Some(st), build, clock);
      && r.Some? && r.value.seeded
      && (!st.seeded ==> r.value.projects == MakeDemos(build, clock))
      && (st.seeded ==>
            && |r.value.projects| == |st.projects|
            && forall i :: 0 <= i < |st.projects| ==>
                 var p := st.projects[i];
                 var q := r.value.projects[i];
                 && SameIdentity(q, p) && q.status == Done
                 && (p.status == Generating ==> q.progressMessage.None? && q.progressPct.None?)
                 && ((p.status == Done && ContentsEmpty(p.files) && (p.id !in DemoIds || !ContentsEmpty(build(p))))
                       ==> q == p.(files := build(p)))
                 && (p.status == Done && !ContentsEmpty(p.files) ==> q == p))
  {
  }

  /**
   * A seeded store written and read back has every project finished, in
   * its place, with no token and no progress.
   */
  lemma PersistRoundTrip(s: State, build: Builder, clock: Clock)
    requires s.seeded
    ensures var r := Rehydrate(Some(Partialize(s)), build, clock).value;
      && |r.projects| == |s.projects|
      && forall i :: 0 <= i < |s.projects| ==>
           && r.projects[i].status == Done && r.projects[i].id == s.projects[i].id
           && r.projects[i].figmaToken.None? && r.projects[i].progressMessage.None?
  {
    PartializeSpec(s);
    RehydrateSpec(Partialize(s), build, clock);
  }
}
