/**
  Writing a secret while folders move (internal/store/secrets.go:115-176,
  internal/store/service.go:509-561), one statement at a time. Both are transactions at
  READ COMMITTED: a write names its secret after the path it read, and a move renames
  the secrets that were committed when its refresh ran. Neither waits for the other, as
  a move changes no column of the folder that a secret's foreign key locks.
*/
module FolderRaces {
  import opened Results
  import opened Paths
  import opened Folders

  type PutId = nat

  datatype Move = Move(env: nat, node: nat, parent: nat, name: string, oldPath: string, newPath: string)

  /** A write that has read its folder and has yet to commit the row. */
  datatype Put = Put(folder: nat, path: string, key: string)

  /** A move whose statements have run and that has yet to commit; `seen` are the secrets its refresh saw. */
  datatype UnderWay = UnderWay(move: Move, seen: set<nat>)

  /** What is committed, and the transactions under way. */
  datatype State = State(
    folders: FolderTable,
    secrets: SecretTable,
    puts: map<PutId, Put>,
    moving: Option<UnderWay>)

  datatype Step =
    | ReadFolder(p: PutId, folder: nat, key: string)
    | CommitPut(p: PutId, id: nat)
    | AbandonPut(p: PutId)
    | RunMove(move: Move)
    | CommitMove
    | AbandonMove

  ghost predicate Allowed(folders: FolderTable, m: Move) {
    Movable(folders, m.env, m.node, m.parent, m.name, m.oldPath, m.newPath)
  }

  function MovedBy(folders: FolderTable, m: Move): FolderTable {
    Moved(folders, m.env, m.node, m.parent, m.name, m.oldPath, m.newPath)
  }

  predicate Covers(m: Move, folders: FolderTable, folder: nat) {
    InSubtree(folders, m.env, m.oldPath, folder)
  }

  ghost predicate Enabled(s: State, step: Step) {
    match step
    case ReadFolder(p, folder, _) => p !in s.puts && Live(s.folders, folder)
    case CommitPut(p, id) => p in s.puts && s.puts[p].folder in s.folders && id !in s.secrets
    case AbandonPut(p) => p in s.puts
    case RunMove(m) => s.moving.None? && Allowed(s.folders, m)
    case CommitMove => s.moving.Some?
    case AbandonMove => s.moving.Some?
  }

  /** The row a write commits. */
  function Row(s: State, slugs: Slugs, put: Put): Secret
    requires put.folder in s.folders
  {
    var env := s.folders[put.folder].env;
    Secret(env, put.folder, put.key, MrnResourcePath(slugs(env), put.path, put.key), false)
  }

  /** The names after a move commits: what its refresh saw is renamed, the rest is as it was. */
  function Renamed(secrets: SecretTable, seen: set<nat>, after: FolderTable, slugs: Slugs, m: Move): SecretTable {
    map id | id in secrets :: if id in seen then Refreshed(secrets[id], after, slugs, m.env, m.newPath) else secrets[id]
  }

  ghost function Apply(s: State, slugs: Slugs, step: Step): State
    requires Enabled(s, step)
  {
    match step
    case ReadFolder(p, folder, key) => s.(puts := s.puts[p := Put(folder, s.folders[folder].path, key)])
    case CommitPut(p, id) => s.(secrets := s.secrets[id := Row(s, slugs, s.puts[p])], puts := s.puts - {p})
    case AbandonPut(p) => s.(puts := s.puts - {p})
    case RunMove(m) => s.(moving := Some(UnderWay(m, s.secrets.Keys)))
    case CommitMove =>
      var UnderWay(m, seen) := s.moving.value;
      var after := MovedBy(s.folders, m);
      s.(folders := after, secrets := Renamed(s.secrets, seen, after, slugs, m), moving := None)
    case AbandonMove => s.(moving := None)
  }

  ghost predicate Run(start: State, slugs: Slugs, steps: seq<Step>, end: State)
    decreases |steps|
  {
    if steps == [] then end == start
    else Enabled(start, steps[0]) && Run(Apply(start, slugs, steps[0]), slugs, steps[1..], end)
  }

  // ---------------------------------------------------------------------------
  // What writes that keep out of the way of moves keep
  // ---------------------------------------------------------------------------

  ghost predicate Inv(s: State) {
    && Tree(s.folders)
    && (forall p | p in s.puts :: Live(s.folders, s.puts[p].folder) && Absolute(s.puts[p].path))
    && (s.moving.Some? ==> Allowed(s.folders, s.moving.value.move) && s.moving.value.seen <= s.secrets.Keys)
  }

  /** No secret came into the subtree of the move under way since its refresh. */
  ghost predicate AllSeen(s: State) {
    s.moving.Some? ==> forall id | id in s.secrets && Covers(s.moving.value.move, s.folders, s.secrets[id].folder) ::
      id in s.moving.value.seen
  }

  ghost predicate Sound(s: State, slugs: Slugs) {
    Inv(s) && Addressed(s.folders, s.secrets, slugs) && AllSeen(s)
  }

  /** The folder of the write has moved since it was read, or is in the subtree of the move under way. */
  predicate Overlaps(s: State, p: PutId)
    requires p in s.puts && s.puts[p].folder in s.folders
  {
    || s.folders[s.puts[p].folder].path != s.puts[p].path
    || (s.moving.Some? && Covers(s.moving.value.move, s.folders, s.puts[p].folder))
  }

  /** Every write of the run commits without overlapping a move of its folder. */
  ghost predicate Careful(s: State, slugs: Slugs, steps: seq<Step>)
    decreases |steps|
  {
    steps != [] && Enabled(s, steps[0]) ==>
      && (steps[0].CommitPut? ==> !Overlaps(s, steps[0].p))
      && Careful(Apply(s, slugs, steps[0]), slugs, steps[1..])
  }

  lemma CommitMoveKeepsTree(s: State, slugs: Slugs)
    requires Inv(s) && s.moving.Some?
    ensures var after := MovedBy(s.folders, s.moving.value.move);
            Tree(after) && forall f | Live(s.folders, f) :: Live(after, f)
  {
    var m := s.moving.value.move;
    MoveKeepsTree(s.folders, m.env, m.node, m.parent, m.name, m.oldPath, m.newPath);
    forall f | Live(s.folders, f) ensures Live(MovedBy(s.folders, m), f) {
      MovedPaths(s.folders, m.env, m.node, m.parent, m.name, m.oldPath, m.newPath, f);
    }
  }

  lemma StepKeepsInv(s: State, slugs: Slugs, step: Step)
    requires Inv(s) && Enabled(s, step)
    ensures Inv(Apply(s, slugs, step))
  {
    match step {
      case ReadFolder(p, folder, key) => LivePathAbsolute(s.folders, folder);
      case CommitMove => CommitMoveKeepsTree(s, slugs);
      case _ =>
    }
  }

  /** A refresh that saw every secret of the subtree leaves every live secret named after its folder. */
  lemma CommitMoveKeepsNames(s: State, slugs: Slugs)
    requires Sound(s, slugs) && s.moving.Some?
    ensures var next := Apply(s, slugs, CommitMove); Addressed(next.folders, next.secrets, slugs)
  {
    var UnderWay(m, seen) := s.moving.value;
    var after := MovedBy(s.folders, m);
    var next := Apply(s, slugs, CommitMove);
    RefreshRestoresNames(s.folders, s.secrets, slugs, m.env, m.node, m.parent, m.name, m.oldPath, m.newPath);
    var all := RefreshSecretMrnPathsInSubtree(s.secrets, after, slugs, m.env, m.newPath);
    forall id | id in next.secrets && !next.secrets[id].deleted
      ensures Live(after, next.secrets[id].folder) && after[next.secrets[id].folder].env == next.secrets[id].env
      ensures NamedAfter(next.secrets[id], after, slugs)
    {
      assert all[id] == Refreshed(s.secrets[id], after, slugs, m.env, m.newPath);
      if id in seen {
        assert next.secrets[id] == all[id];
      } else {
        var f := s.secrets[id].folder;
        assert !Covers(m, s.folders, f);
        MovedPaths(s.folders, m.env, m.node, m.parent, m.name, m.oldPath, m.newPath, f);
      }
    }
  }

  lemma StepKeepsSound(s: State, slugs: Slugs, step: Step)
    requires Sound(s, slugs) && Enabled(s, step)
    requires step.CommitPut? ==> !Overlaps(s, step.p)
    ensures Sound(Apply(s, slugs, step), slugs)
  {
    StepKeepsInv(s, slugs, step);
    if step.CommitMove? {
      CommitMoveKeepsNames(s, slugs);
    }
  }

  /** Over every run in which no write overlaps a move of its folder, every live secret is named after its folder. */
  lemma {:induction false} CarefulRunsKeepNames(s: State, slugs: Slugs, steps: seq<Step>, end: State)
    requires Sound(s, slugs) && Run(s, slugs, steps, end) && Careful(s, slugs, steps)
    ensures Sound(end, slugs)
    decreases |steps|
  {
    if steps != [] {
      StepKeepsSound(s, slugs, steps[0]);
      CarefulRunsKeepNames(Apply(s, slugs, steps[0]), slugs, steps[1..], end);
    }
  }

  // ---------------------------------------------------------------------------
  // And what one that does not breaks
  // ---------------------------------------------------------------------------

  ghost predicate NeverMisnames(s: State, slugs: Slugs) {
    forall steps, end :: Run(s, slugs, steps, end) && Careful(s, slugs, steps) ==>
      Addressed(end.folders, end.secrets, slugs)
  }

  /**
    No less will do, write by write: the row a write commits is rightly named now and
    after whatever else commits without an overlap of its own, exactly when its folder
    has not moved since it was read and is not in the subtree of a move under way.
  */
  lemma {:induction false} WriteIsSafeIff(s: State, slugs: Slugs, p: PutId, id: nat)
    requires Sound(s, slugs) && Enabled(s, CommitPut(p, id))
    ensures NeverMisnames(Apply(s, slugs, CommitPut(p, id)), slugs) <==> !Overlaps(s, p)
  {
    var next := Apply(s, slugs, CommitPut(p, id));
    if !Overlaps(s, p) {
      StepKeepsSound(s, slugs, CommitPut(p, id));
      forall steps, end | Run(next, slugs, steps, end) && Careful(next, slugs, steps)
        ensures Addressed(end.folders, end.secrets, slugs)
      {
        CarefulRunsKeepNames(next, slugs, steps, end);
      }
    } else if s.folders[s.puts[p].folder].path != s.puts[p].path {
      MisnamedAtOnce(s, slugs, p, id);
      assert Run(next, slugs, [], next) && Careful(next, slugs, []);
    } else {
      MisnamedByMove(s, slugs, p, id);
      var end := Apply(next, slugs, CommitMove);
      assert [CommitMove][1..] == [] && Run(end, slugs, [], end) && Careful(end, slugs, []);
      assert Run(next, slugs, [CommitMove], end) && Careful(next, slugs, [CommitMove]);
    }
  }

  lemma MisnamedAtOnce(s: State, slugs: Slugs, p: PutId, id: nat)
    requires Inv(s) && Enabled(s, CommitPut(p, id)) && s.folders[s.puts[p].folder].path != s.puts[p].path
    ensures var next := Apply(s, slugs, CommitPut(p, id)); !Addressed(next.folders, next.secrets, slugs)
  {
    var put := s.puts[p];
    var next := Apply(s, slugs, CommitPut(p, id));
    LivePathAbsolute(s.folders, put.folder);
    ResourcePathInjective(slugs(s.folders[put.folder].env), put.path, s.folders[put.folder].path, put.key);
    assert !NamedAfter(next.secrets[id], next.folders, slugs);
  }

  lemma MisnamedByMove(s: State, slugs: Slugs, p: PutId, id: nat)
    requires Inv(s) && Enabled(s, CommitPut(p, id)) && s.moving.Some?
    requires Covers(s.moving.value.move, s.folders, s.puts[p].folder)
    requires s.folders[s.puts[p].folder].path == s.puts[p].path
    ensures var next := Apply(s, slugs, CommitPut(p, id));
            Enabled(next, CommitMove)
            && var end := Apply(next, slugs, CommitMove); !Addressed(end.folders, end.secrets, slugs)
  {
    var put, m := s.puts[p], s.moving.value.move;
    var next := Apply(s, slugs, CommitPut(p, id));
    var end := Apply(next, slugs, CommitMove);
    assert id !in s.moving.value.seen && end.secrets[id] == Row(s, slugs, put);
    MovedPaths(s.folders, m.env, m.node, m.parent, m.name, m.oldPath, m.newPath, put.folder);
    RebasedDiffers(put.path, m.oldPath, m.newPath);
    CommitMoveKeepsTree(s, slugs);
    LivePathAbsolute(end.folders, put.folder);
    ResourcePathInjective(slugs(s.folders[put.folder].env), put.path, end.folders[put.folder].path, put.key);
    assert !NamedAfter(end.secrets[id], end.folders, slugs);
  }

  /** It does happen: any move can commit between a write's reading of its folder and its commit. */
  lemma OverlapIsReachable(s: State, slugs: Slugs, m: Move, p: PutId, key: string) returns (end: State)
    requires Sound(s, slugs) && s.moving.None? && Allowed(s.folders, m) && p !in s.puts
    ensures Run(s, slugs, [ReadFolder(p, m.node, key), RunMove(m), CommitMove], end)
    ensures Sound(end, slugs) && p in end.puts && end.puts[p].folder in end.folders && Overlaps(end, p)
  {
    var steps := [ReadFolder(p, m.node, key), RunMove(m), CommitMove];
    var s1 := Apply(s, slugs, steps[0]);
    var s2 := Apply(s1, slugs, steps[1]);
    end := Apply(s2, slugs, steps[2]);
    StepKeepsSound(s, slugs, steps[0]);
    StepKeepsSound(s1, slugs, steps[1]);
    StepKeepsSound(s2, slugs, steps[2]);
    assert steps[1..][1..] == steps[2..] && steps[2..][1..] == [];
    assert Run(end, slugs, [], end);
    assert Run(s2, slugs, steps[2..], end);
    assert Run(s1, slugs, steps[1..], end);
    MovedPaths(s.folders, m.env, m.node, m.parent, m.name, m.oldPath, m.newPath, m.node);
  }
}
