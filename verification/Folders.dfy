/**
  Folders as an adjacency list with materialized paths, and the secrets whose
  resource names are derived from them (internal/storage/folder.sql.go,
  internal/store/service.go, secret.sql). Each statement is a function on the
  table it updates; each service operation is one transaction over them.
*/
module Folders {
  import opened Results
  import opened Paths
  import opened Text

  datatype Folder = Folder(env: nat, parent: Option<nat>, name: string, path: string, deleted: bool)

  datatype Secret = Secret(env: nat, folder: nat, key: string, mrnPath: string, deleted: bool)

  type FolderTable = map<nat, Folder>
  type SecretTable = map<nat, Secret>

  predicate Live(folders: FolderTable, id: nat) {
    id in folders && !folders[id].deleted
  }

  /** The live folder of an environment at a path, as GetFolderByPath looks it up. */
  predicate At(folders: FolderTable, env: nat, path: string, id: nat) {
    Live(folders, id) && folders[id].env == env && folders[id].path == path
  }

  ghost predicate Occupied(folders: FolderTable, env: nat, path: string) {
    exists id | id in folders :: At(folders, env, path, id)
  }

  /** A live folder's path is its live parent's path joined with its name; only the root has no parent. */
  predicate WellPlaced(folders: FolderTable, id: nat)
    requires id in folders
  {
    var f := folders[id];
    match f.parent
    case None => f.path == "/"
    case Some(q) =>
      && Live(folders, q) && folders[q].env == f.env
      && Name(f.name) && f.path == JoinPath(folders[q].path, f.name)
  }

  ghost predicate PathsUnique(folders: FolderTable) {
    forall i, j | Live(folders, i) && Live(folders, j) && folders[i].env == folders[j].env
      && folders[i].path == folders[j].path :: i == j
  }

  ghost predicate Tree(folders: FolderTable) {
    && (forall id | Live(folders, id) :: WellPlaced(folders, id))
    && PathsUnique(folders)
  }

  lemma {:induction false} LivePathAbsolute(folders: FolderTable, id: nat)
    requires Tree(folders) && Live(folders, id)
    ensures Absolute(folders[id].path)
    ensures folders[id].parent.Some? ==>
      var q := folders[id].parent.value;
      Live(folders, q) && Absolute(folders[q].path) && folders[id].path != "/" && |folders[q].path| < |folders[id].path|
    decreases |folders[id].path|
  {
    assert WellPlaced(folders, id);
    if folders[id].parent.Some? {
      LivePathAbsolute(folders, folders[id].parent.value);
      SplitInvertsJoin(folders[folders[id].parent.value].path, folders[id].name);
    }
  }

  /** The chain of parents is acyclic: it reaches every ancestor path, each of them a live folder. */
  lemma {:induction false} AncestorIsLive(folders: FolderTable, id: nat, ancestor: string) returns (at: nat)
    requires Tree(folders) && Live(folders, id) && Absolute(ancestor)
    requires IsAtOrUnder(folders[id].path, ancestor)
    ensures At(folders, folders[id].env, ancestor, at)
    decreases |folders[id].path|
  {
    var f := folders[id];
    if f.path == ancestor {
      at := id;
    } else {
      LivePathAbsolute(folders, id);
      assert WellPlaced(folders, id);
      AtOrUnderIff(f.path, ancestor);
      assert f.parent.Some?;
      LivePathAbsolute(folders, f.parent.value);
      ChildAtOrUnderIff(folders[f.parent.value].path, f.name, ancestor);
      at := AncestorIsLive(folders, f.parent.value, ancestor);
    }
  }

  // ---------------------------------------------------------------------------
  // The statements
  // ---------------------------------------------------------------------------

  /** path = root OR path LIKE SubtreePattern(root). */
  predicate Selected(path: string, root: string) {
    path == root || Like(path, SubtreePattern(root))
  }

  /** substring(path FROM n + 1). */
  function Tail(path: string, n: nat): string {
    if n <= |path| then path[n..] else ""
  }

  function ReparentFolder(folders: FolderTable, id: nat, parent: nat, name: string, path: string): FolderTable {
    if Live(folders, id) then folders[id := folders[id].(parent := Some(parent), name := name, path := path)]
    else folders
  }

  function Rerooted(f: Folder, env: nat, oldPath: string, newPath: string): Folder {
    if f.env == env && Selected(f.path, oldPath) && !f.deleted then f.(path := newPath + Tail(f.path, |oldPath|)) else f
  }

  function MoveFolderSubtreePaths(folders: FolderTable, env: nat, oldPath: string, newPath: string): FolderTable {
    map id | id in folders :: Rerooted(folders[id], env, oldPath, newPath)
  }

  function SoftDeleteFolderSubtree(folders: FolderTable, env: nat, path: string): FolderTable {
    map id | id in folders ::
      if folders[id].env == env && Selected(folders[id].path, path) then folders[id].(deleted := true) else folders[id]
  }

  function MrnResourcePath(slug: string, path: string, key: string): string {
    if path == "/" then "secret/" + slug + "/" + key else "secret/" + slug + path + "/" + key
  }

  type Slugs = nat -> string

  function Refreshed(s: Secret, folders: FolderTable, slugs: Slugs, env: nat, path: string): Secret {
    if s.env == env && s.folder in folders && Selected(folders[s.folder].path, path) && !s.deleted
    then s.(mrnPath := MrnResourcePath(slugs(s.env), folders[s.folder].path, s.key))
    else s
  }

  function RefreshSecretMrnPathsInSubtree(
    secrets: SecretTable, folders: FolderTable, slugs: Slugs, env: nat, path: string): SecretTable {
    map id | id in secrets :: Refreshed(secrets[id], folders, slugs, env, path)
  }

  function SoftDeleteSecretsInFolderSubtree(
    secrets: SecretTable, folders: FolderTable, env: nat, path: string): SecretTable {
    map id | id in secrets ::
      if secrets[id].env == env && secrets[id].folder in folders && folders[secrets[id].folder].env == env
         && Selected(folders[secrets[id].folder].path, path)
      then secrets[id].(deleted := true) else secrets[id]
  }

  // ---------------------------------------------------------------------------
  // A move on the folder table
  // ---------------------------------------------------------------------------

  function Moved(
    folders: FolderTable, env: nat, node: nat, parent: nat, name: string, oldPath: string, newPath: string)
    : FolderTable {
    MoveFolderSubtreePaths(ReparentFolder(folders, node, parent, name, newPath), env, oldPath, newPath)
  }

  /** What a move is asked of: a live source, a live parent of the destination, no folder there, not into itself. */
  ghost predicate Movable(
    folders: FolderTable, env: nat, node: nat, parent: nat, name: string, oldPath: string, newPath: string) {
    && Tree(folders) && At(folders, env, oldPath, node)
    && Live(folders, parent) && folders[parent].env == env && Name(name)
       && newPath == JoinPath(folders[parent].path, name)
    && Absolute(oldPath) && oldPath != "/" && Absolute(newPath) && newPath != "/"
    && !IsAtOrUnder(newPath, oldPath) && !Occupied(folders, env, newPath)
  }

  predicate InSubtree(folders: FolderTable, env: nat, root: string, id: nat) {
    Live(folders, id) && folders[id].env == env && IsAtOrUnder(folders[id].path, root)
  }

  /**
    Exactly the folders of the subtree get the re-rooted path; every other row, in or
    out of the environment, is untouched.
  */
  lemma MovedPaths(
    folders: FolderTable, env: nat, node: nat, parent: nat, name: string, oldPath: string, newPath: string, id: nat)
    requires Movable(folders, env, node, parent, name, oldPath, newPath) && id in folders
    ensures id in Moved(folders, env, node, parent, name, oldPath, newPath)
    ensures var f := Moved(folders, env, node, parent, name, oldPath, newPath)[id];
            if !InSubtree(folders, env, oldPath, id) then f == folders[id]
            else
              && Absolute(folders[id].path)
              && f.path == Rebased(folders[id].path, oldPath, newPath)
              && f ==
                   if id == node then folders[id].(parent := Some(parent), name := name, path := newPath)
                   else folders[id].(path := f.path)
  {
    if Live(folders, id) {
      LivePathAbsolute(folders, id);
      SubtreePatternIff(folders[id].path, oldPath);
      SubtreePatternIff(newPath, oldPath);
    }
  }

  /** Every live folder at or under the destination came from the source. */
  lemma DestinationWasEmpty(
    folders: FolderTable, env: nat, node: nat, parent: nat, name: string, oldPath: string, newPath: string, id: nat)
    requires Movable(folders, env, node, parent, name, oldPath, newPath)
    ensures !InSubtree(folders, env, newPath, id)
  {
    if InSubtree(folders, env, newPath, id) {
      var at := AncestorIsLive(folders, id, newPath);
      assert false;
    }
  }

  lemma SubtreeHasParents(folders: FolderTable, env: nat, oldPath: string, id: nat)
    requires Tree(folders) && Live(folders, id) && Absolute(oldPath) && folders[id].parent.Some?
    ensures InSubtree(folders, env, oldPath, id) && folders[id].path != oldPath ==>
      InSubtree(folders, env, oldPath, folders[id].parent.value)
    ensures InSubtree(folders, env, oldPath, folders[id].parent.value) ==> InSubtree(folders, env, oldPath, id)
  {
    assert WellPlaced(folders, id);
    LivePathAbsolute(folders, folders[id].parent.value);
    ChildAtOrUnderIff(folders[folders[id].parent.value].path, folders[id].name, oldPath);
  }

  lemma RebasedJoin(path: string, name: string, oldPath: string, newPath: string)
    requires Absolute(path) && Name(name) && Absolute(oldPath) && oldPath != "/" && Absolute(newPath) && newPath != "/"
    requires IsAtOrUnder(path, oldPath) && IsAtOrUnder(JoinPath(path, name), oldPath) && Absolute(JoinPath(path, name))
    ensures Rebased(JoinPath(path, name), oldPath, newPath) == JoinPath(Rebased(path, oldPath, newPath), name)
  {
    AtOrUnderIff(path, oldPath);
    assert path != "/";
    RebasedNames(path, oldPath, newPath);
    assert JoinPath(path, name)[|oldPath|..] == path[|oldPath|..] + "/" + name;
  }

  lemma MoveKeepsPlace(
    folders: FolderTable, env: nat, node: nat, parent: nat, name: string, oldPath: string, newPath: string, id: nat)
    requires Movable(folders, env, node, parent, name, oldPath, newPath)
    requires Live(folders, id)
    ensures var after := Moved(folders, env, node, parent, name, oldPath, newPath);
            id in after && WellPlaced(after, id)
  {
    var after := Moved(folders, env, node, parent, name, oldPath, newPath);
    MovedPaths(folders, env, node, parent, name, oldPath, newPath, id);
    assert WellPlaced(folders, id);
    LivePathAbsolute(folders, id);
    if id == node {
      LivePathAbsolute(folders, parent);
      ChildAtOrUnderIff(folders[parent].path, name, oldPath);
      MovedPaths(folders, env, node, parent, name, oldPath, newPath, parent);
    } else if folders[id].parent.Some? {
      var q := folders[id].parent.value;
      LivePathAbsolute(folders, q);
      MovedPaths(folders, env, node, parent, name, oldPath, newPath, q);
      SubtreeHasParents(folders, env, oldPath, id);
      if InSubtree(folders, env, oldPath, id) {
        RebasedNames(folders[q].path, oldPath, newPath);
        RebasedJoin(folders[q].path, folders[id].name, oldPath, newPath);
      }
    } else {
      AtOrUnderIff("/", oldPath);
    }
  }

  lemma MoveKeepsUnique(
    folders: FolderTable, env: nat, node: nat, parent: nat, name: string, oldPath: string, newPath: string, i: nat,
    j: nat)
    requires Movable(folders, env, node, parent, name, oldPath, newPath)
    requires Live(folders, i) && Live(folders, j) && folders[i].env == folders[j].env
    requires var after := Moved(folders, env, node, parent, name, oldPath, newPath);
             i in after && j in after && after[i].path == after[j].path
    ensures i == j
  {
    MovedPaths(folders, env, node, parent, name, oldPath, newPath, i);
    MovedPaths(folders, env, node, parent, name, oldPath, newPath, j);
    DestinationWasEmpty(folders, env, node, parent, name, oldPath, newPath, i);
    DestinationWasEmpty(folders, env, node, parent, name, oldPath, newPath, j);
    LivePathAbsolute(folders, i);
    LivePathAbsolute(folders, j);
    if InSubtree(folders, env, oldPath, i) {
      RebasedNames(folders[i].path, oldPath, newPath);
    }
    if InSubtree(folders, env, oldPath, j) {
      RebasedNames(folders[j].path, oldPath, newPath);
    }
    if InSubtree(folders, env, oldPath, i) && InSubtree(folders, env, oldPath, j) {
      SameTail(folders[i].path, folders[j].path, oldPath, newPath);
    }
  }

  lemma SameTail(p: string, q: string, oldPath: string, newPath: string)
    requires Absolute(p) && Absolute(q) && Absolute(oldPath) && oldPath != "/"
    requires IsAtOrUnder(p, oldPath) && IsAtOrUnder(q, oldPath)
    requires Rebased(p, oldPath, newPath) == Rebased(q, oldPath, newPath)
    ensures p == q
  {
    var n := |oldPath|;
    assert (newPath + p[n..])[|newPath|..] == p[n..] && (newPath + q[n..])[|newPath|..] == q[n..];
    assert p == oldPath + p[n..] && q == oldPath + q[n..];
  }

  /** A move keeps the tree: every path its parent's joined with its name, every path unique. */
  lemma MoveKeepsTree(
    folders: FolderTable, env: nat, node: nat, parent: nat, name: string, oldPath: string, newPath: string)
    requires Movable(folders, env, node, parent, name, oldPath, newPath)
    ensures Tree(Moved(folders, env, node, parent, name, oldPath, newPath))
  {
    var after := Moved(folders, env, node, parent, name, oldPath, newPath);
    forall id | Live(after, id) ensures WellPlaced(after, id) {
      MovedPaths(folders, env, node, parent, name, oldPath, newPath, id);
      MoveKeepsPlace(folders, env, node, parent, name, oldPath, newPath, id);
    }
    forall i, j | Live(after, i) && Live(after, j) && after[i].env == after[j].env && after[i].path == after[j].path
      ensures i == j
    {
      MovedPaths(folders, env, node, parent, name, oldPath, newPath, i);
      MovedPaths(folders, env, node, parent, name, oldPath, newPath, j);
      MoveKeepsUnique(folders, env, node, parent, name, oldPath, newPath, i, j);
    }
  }

  /** Moving the folder back under its old parent and name restores every row. */
  lemma MovingBackRestores(
    folders: FolderTable, env: nat, node: nat, parent: nat, name: string, oldPath: string, newPath: string)
    requires Movable(folders, env, node, parent, name, oldPath, newPath)
    requires folders[node].parent.Some?
    ensures var after := Moved(folders, env, node, parent, name, oldPath, newPath);
            && Movable(after, env, node, folders[node].parent.value, folders[node].name, newPath, oldPath)
            && Moved(after, env, node, folders[node].parent.value, folders[node].name, newPath, oldPath) == folders
  {
    BackIsMovable(folders, env, node, parent, name, oldPath, newPath);
    var after := Moved(folders, env, node, parent, name, oldPath, newPath);
    var back := Moved(after, env, node, folders[node].parent.value, folders[node].name, newPath, oldPath);
    MovedKeys(folders, env, node, parent, name, oldPath, newPath);
    MovedKeys(after, env, node, folders[node].parent.value, folders[node].name, newPath, oldPath);
    forall id | id in folders ensures back[id] == folders[id] {
      RowRestored(folders, env, node, parent, name, oldPath, newPath, id);
    }
    SameRows(back, folders);
  }

  lemma SameRows(a: FolderTable, b: FolderTable)
    requires a.Keys == b.Keys && forall id | id in b :: a[id] == b[id]
    ensures a == b
  {
  }

  lemma MovedKeys(
    folders: FolderTable, env: nat, node: nat, parent: nat, name: string, oldPath: string, newPath: string)
    ensures Moved(folders, env, node, parent, name, oldPath, newPath).Keys == folders.Keys
  {
  }

  lemma RowRestored(
    folders: FolderTable, env: nat, node: nat, parent: nat, name: string, oldPath: string, newPath: string, id: nat)
    requires Movable(folders, env, node, parent, name, oldPath, newPath)
    requires folders[node].parent.Some? && id in folders
    requires var after := Moved(folders, env, node, parent, name, oldPath, newPath);
             Movable(after, env, node, folders[node].parent.value, folders[node].name, newPath, oldPath)
    ensures var after := Moved(folders, env, node, parent, name, oldPath, newPath);
            var back := Moved(after, env, node, folders[node].parent.value, folders[node].name, newPath, oldPath);
            id in back && back[id] == folders[id]
  {
    var after := Moved(folders, env, node, parent, name, oldPath, newPath);
    MovedPaths(folders, env, node, parent, name, oldPath, newPath, id);
    MovedPaths(after, env, node, folders[node].parent.value, folders[node].name, newPath, oldPath, id);
    if InSubtree(folders, env, oldPath, id) {
      RebasedBack(folders[id].path, oldPath, newPath);
    } else {
      DestinationWasEmpty(folders, env, node, parent, name, oldPath, newPath, id);
    }
  }

  lemma RebasedBack(p: string, oldPath: string, newPath: string)
    requires Absolute(p) && Absolute(oldPath) && Absolute(newPath) && oldPath != "/" && newPath != "/"
      && IsAtOrUnder(p, oldPath)
    ensures Absolute(Rebased(p, oldPath, newPath)) && IsAtOrUnder(Rebased(p, oldPath, newPath), newPath)
    ensures Rebased(Rebased(p, oldPath, newPath), newPath, oldPath) == p
  {
    RebasedNames(p, oldPath, newPath);
    assert Rebased(p, oldPath, newPath)[|newPath|..] == p[|oldPath|..];
    assert p == oldPath + p[|oldPath|..];
  }

  lemma BackIsMovable(
    folders: FolderTable, env: nat, node: nat, parent: nat, name: string, oldPath: string, newPath: string)
    requires Movable(folders, env, node, parent, name, oldPath, newPath)
    requires folders[node].parent.Some?
    ensures var after := Moved(folders, env, node, parent, name, oldPath, newPath);
            Movable(after, env, node, folders[node].parent.value, folders[node].name, newPath, oldPath)
  {
    var after := Moved(folders, env, node, parent, name, oldPath, newPath);
    var q := folders[node].parent.value;
    assert WellPlaced(folders, node);
    MoveKeepsTree(folders, env, node, parent, name, oldPath, newPath);
    MovedPaths(folders, env, node, parent, name, oldPath, newPath, node);
    MovedPaths(folders, env, node, parent, name, oldPath, newPath, q);
    LivePathAbsolute(folders, node);
    LivePathAbsolute(folders, q);
    AtOrUnderIff(folders[q].path, oldPath);
    assert !IsAtOrUnder(folders[q].path, oldPath);
    DestinationWasEmpty(folders, env, node, parent, name, oldPath, newPath, node);
    forall id | id in after ensures !At(after, env, oldPath, id) {
      MovedPaths(folders, env, node, parent, name, oldPath, newPath, id);
      if InSubtree(folders, env, oldPath, id) {
        LivePathAbsolute(folders, id);
        RebasedNames(folders[id].path, oldPath, newPath);
      }
    }
  }

  /** The two statements commute unless the destination lies strictly inside the source. */
  lemma StatementsCommuteIff(
    folders: FolderTable, env: nat, node: nat, parent: nat, name: string, oldPath: string, newPath: string)
    requires At(folders, env, oldPath, node) && Absolute(oldPath) && Absolute(newPath) && oldPath != "/"
    ensures MoveFolderSubtreePaths(ReparentFolder(folders, node, parent, name, newPath), env, oldPath, newPath)
         == ReparentFolder(MoveFolderSubtreePaths(folders, env, oldPath, newPath), node, parent, name, newPath)
        <==> newPath == oldPath || !IsAtOrUnder(newPath, oldPath)
  {
    var reparentFirst := MoveFolderSubtreePaths(ReparentFolder(folders, node, parent, name, newPath), env, oldPath,
      newPath);
    var rewriteFirst := ReparentFolder(MoveFolderSubtreePaths(folders, env, oldPath, newPath), node, parent, name,
      newPath);
    SubtreePatternIff(newPath, oldPath);
    assert forall id | id in folders && id != node :: reparentFirst[id] == rewriteFirst[id];
    assert rewriteFirst[node].path == newPath;
    if IsAtOrUnder(newPath, oldPath) {
      assert reparentFirst[node].path == newPath + newPath[|oldPath|..];
      assert newPath == oldPath + newPath[|oldPath|..];
    } else {
      assert reparentFirst[node].path == newPath;
    }
    assert reparentFirst[node] == rewriteFirst[node] <==> newPath == oldPath || !IsAtOrUnder(newPath, oldPath);
    if newPath == oldPath || !IsAtOrUnder(newPath, oldPath) {
      assert reparentFirst == rewriteFirst;
    }
  }

  // ---------------------------------------------------------------------------
  // Secrets and their resource names
  // ---------------------------------------------------------------------------

  predicate NamedAfter(s: Secret, folders: FolderTable, slugs: Slugs)
    requires s.folder in folders
  {
    s.mrnPath == MrnResourcePath(slugs(s.env), folders[s.folder].path, s.key)
  }

  /** Every live secret is in a live folder of its environment and named after its path. */
  ghost predicate Addressed(folders: FolderTable, secrets: SecretTable, slugs: Slugs) {
    forall id | id in secrets && !secrets[id].deleted ::
      && Live(folders, secrets[id].folder) && folders[secrets[id].folder].env == secrets[id].env
      && NamedAfter(secrets[id], folders, slugs)
  }

  lemma ResourcePathInjective(slug: string, p: string, q: string, key: string)
    requires Absolute(p) && Absolute(q)
    ensures MrnResourcePath(slug, p, key) == MrnResourcePath(slug, q, key) <==> p == q
  {
    var a, b := if p == "/" then "" else p, if q == "/" then "" else q;
    var head := "secret/" + slug;
    assert MrnResourcePath(slug, p, key) == head + a + ("/" + key)
      && MrnResourcePath(slug, q, key) == head + b + ("/" + key);
    if head + a + ("/" + key) == head + b + ("/" + key) {
      assert (head + a + ("/" + key))[|head|..|head| + |a|] == a && (head + b + ("/" + key))[|head|..|head| + |b|] == b;
    }
  }

  lemma JoinFirst(first: string, rest: seq<string>)
    requires rest != []
    ensures Join([first] + rest) == first + "/" + Join(rest)
  {
    assert ([first] + rest)[1..] == rest;
  }

  /** A resource path is the environment's slug, the names of the folder's path and the key, in this order. */
  lemma {:induction false} ResourcePathLayout(slug: string, path: string, key: string)
    requires Absolute(path)
    ensures MrnResourcePath(slug, path, key) == Join(["secret", slug] + NamesOf(path) + [key])
  {
    var names := NamesOf(path);
    NamesOfPath(path);
    var tail := names + [key];
    assert ["secret", slug] + names + [key] == ["secret"] + ([slug] + tail);
    JoinFirst("secret", [slug] + tail);
    JoinFirst(slug, tail);
    if names == [] {
      assert tail == [key] && Join(tail) == key;
      assert "secret" + "/" + (slug + "/" + key) == "secret/" + slug + "/" + key;
    } else {
      JoinConcat(names, [key]);
      assert path == "/" + Join(names);
      assert "secret" + "/" + (slug + "/" + (Join(names) + "/" + key)) == "secret/" + slug + path + "/" + key;
    }
  }

  /** So no two secrets that differ in slug, path or key are named alike. */
  lemma ResourcePathsDiffer(slug: string, p: string, key: string, other: string, q: string, another: string)
    requires Absolute(p) && Absolute(q)
    requires '/' !in slug && '/' !in key && '/' !in other && '/' !in another
    ensures MrnResourcePath(slug, p, key) == MrnResourcePath(other, q, another)
      <==> slug == other && p == q && key == another
  {
    var a, b := ["secret", slug] + NamesOf(p) + [key], ["secret", other] + NamesOf(q) + [another];
    ResourcePathLayout(slug, p, key);
    ResourcePathLayout(other, q, another);
    SplitJoin(a);
    SplitJoin(b);
    NamesOfPath(p);
    NamesOfPath(q);
    if a == b {
      assert slug == a[1] && other == b[1] && key == a[|a| - 1] && another == b[|b| - 1];
      assert NamesOf(p) == a[2..|a| - 1] && NamesOf(q) == b[2..|b| - 1];
    }
  }

  /** Refreshing the destination subtree is enough: after it, every live secret is named after its folder again. */
  lemma RefreshRestoresNames(
    folders: FolderTable, secrets: SecretTable, slugs: Slugs,
    env: nat, node: nat, parent: nat, name: string, oldPath: string, newPath: string)
    requires Movable(folders, env, node, parent, name, oldPath, newPath)
    requires Addressed(folders, secrets, slugs)
    ensures var after := Moved(folders, env, node, parent, name, oldPath, newPath);
            Addressed(after, RefreshSecretMrnPathsInSubtree(secrets, after, slugs, env, newPath), slugs)
  {
    var after := Moved(folders, env, node, parent, name, oldPath, newPath);
    forall id | id in secrets && !secrets[id].deleted
      ensures Live(after, secrets[id].folder) && after[secrets[id].folder].env == secrets[id].env
      ensures NamedAfter(Refreshed(secrets[id], after, slugs, env, newPath), after, slugs)
    {
      var f := secrets[id].folder;
      MovedPaths(folders, env, node, parent, name, oldPath, newPath, f);
      LivePathAbsolute(folders, f);
      if InSubtree(folders, env, oldPath, f) {
        RebasedNames(folders[f].path, oldPath, newPath);
        SubtreePatternIff(after[f].path, newPath);
      }
    }
  }

  lemma RebasedDiffers(p: string, oldPath: string, newPath: string)
    requires Absolute(p) && Absolute(oldPath) && IsAtOrUnder(p, oldPath) && oldPath != "/" && oldPath != newPath
    ensures Rebased(p, oldPath, newPath) != p
  {
    assert p == oldPath + p[|oldPath|..];
    if |oldPath| == |newPath| {
      var i :| 0 <= i < |oldPath| && oldPath[i] != newPath[i];
      assert Rebased(p, oldPath, newPath)[i] != p[i];
    }
  }

  /**
    The refresh skips soft-deleted secrets. One that was deleted before the move
    still carries a right name after it if and only if its folder was not moved.
  */
  lemma DeletedSecretStaysNamedIff(
    folders: FolderTable, s: Secret, slugs: Slugs,
    env: nat, node: nat, parent: nat, name: string, oldPath: string, newPath: string)
    requires Movable(folders, env, node, parent, name, oldPath, newPath)
    requires s.deleted && Live(folders, s.folder) && NamedAfter(s, folders, slugs)
    ensures var after := Moved(folders, env, node, parent, name, oldPath, newPath);
            && s.folder in after && Refreshed(s, after, slugs, env, newPath) == s
            && (NamedAfter(s, after, slugs) <==> !InSubtree(folders, env, oldPath, s.folder))
  {
    var after := Moved(folders, env, node, parent, name, oldPath, newPath);
    MovedPaths(folders, env, node, parent, name, oldPath, newPath, s.folder);
    var p := folders[s.folder].path;
    LivePathAbsolute(folders, s.folder);
    if InSubtree(folders, env, oldPath, s.folder) {
      RebasedNames(p, oldPath, newPath);
      ResourcePathInjective(slugs(s.env), p, after[s.folder].path, s.key);
      RebasedDiffers(p, oldPath, newPath);
    }
  }

  /**
    A move does not look at the depth of what it moves. A folder of the subtree can
    still be named by a caller afterwards if and only if its new path is within the
    limits a path may have.
  */
  lemma MovedFolderIsNameableIff(
    folders: FolderTable, env: nat, node: nat, parent: nat, name: string, oldPath: string, newPath: string, id: nat)
    requires Movable(folders, env, node, parent, name, oldPath, newPath)
    requires InSubtree(folders, env, oldPath, id) && Canonical(folders[id].path) && Canonical(newPath)
    ensures var after := Moved(folders, env, node, parent, name, oldPath, newPath);
            && id in after
            && ((exists p :: NormalizePath(p) == Ok(after[id].path)) <==>
                 && |NamesOf(folders[id].path)| - |NamesOf(oldPath)| + |NamesOf(newPath)| <= MAX_PATH_DEPTH
                 && |folders[id].path| - |oldPath| + |newPath| <= MAX_PATH_LEN)
  {
    var after := Moved(folders, env, node, parent, name, oldPath, newPath);
    MovedPaths(folders, env, node, parent, name, oldPath, newPath, id);
    RebasedNames(folders[id].path, oldPath, newPath);
    NameableIff(after[id].path);
    var rest := NamesOf(folders[id].path)[|NamesOf(oldPath)|..];
    forall i | 0 <= i < |NamesOf(after[id].path)| ensures ValidFolderName(NamesOf(after[id].path)[i]) {
      if i < |NamesOf(newPath)| {
        assert NamesOf(after[id].path)[i] == NamesOf(newPath)[i];
      } else {
        assert NamesOf(after[id].path)[i] == NamesOf(folders[id].path)[i - |NamesOf(newPath)| + |NamesOf(oldPath)|];
      }
    }
  }
}
