/** The folder operations of internal/store/service.go, each one transaction over the two tables. */
module FolderService {
  import opened Results
  import opened Paths
  import opened Folders

  /** Folders were only added: live ancestors of one path that were missing. */
  ghost predicate Grown(before: FolderTable, after: FolderTable, env: nat, path: string) {
    && (forall id | id in before :: id in after && after[id] == before[id])
    && forall id | id in after && id !in before ::
         && Live(after, id) && after[id].env == env && Absolute(after[id].path)
         && IsAtOrUnder(path, after[id].path) && !Occupied(before, env, after[id].path)
  }

  lemma CreateKeepsTree(folders: FolderTable, id: nat, env: nat, parent: nat, name: string)
    requires Tree(folders) && id !in folders && Live(folders, parent) && folders[parent].env == env && Name(name)
    requires !Occupied(folders, env, JoinPath(folders[parent].path, name))
    ensures Tree(folders[id := Folder(env, Some(parent), name, JoinPath(folders[parent].path, name), false)])
  {
    var path := JoinPath(folders[parent].path, name);
    var after := folders[id := Folder(env, Some(parent), name, path, false)];
    LivePathAbsolute(folders, parent);
    forall i | Live(after, i) ensures WellPlaced(after, i) {
      if i != id {
        assert WellPlaced(folders, i);
      }
    }
    forall i | Live(folders, i) && folders[i].env == env ensures folders[i].path != path {
      assert !At(folders, env, path, i);
    }
  }

  /** Creating the next missing ancestor of a path keeps everything the walk down it relies on. */
  lemma CreateGrows(
    before: FolderTable, folders: FolderTable, id: nat, env: nat, parent: nat, name: string, path: string,
    secrets: SecretTable, slugs: Slugs)
    requires Tree(folders) && Addressed(before, secrets, slugs) && Grown(before, folders, env, path)
    requires id !in folders && Live(folders, parent) && folders[parent].env == env && Name(name)
    requires !Occupied(folders, env, JoinPath(folders[parent].path, name))
    requires Absolute(JoinPath(folders[parent].path, name)) && IsAtOrUnder(path, JoinPath(folders[parent].path, name))
    ensures var after := folders[id := Folder(env, Some(parent), name, JoinPath(folders[parent].path, name), false)];
            Tree(after) && Grown(before, after, env, path) && Addressed(after, secrets, slugs)
  {
    var built := JoinPath(folders[parent].path, name);
    var after := folders[id := Folder(env, Some(parent), name, built, false)];
    CreateKeepsTree(folders, id, env, parent, name);
    forall i | i in before ensures !At(before, env, built, i) {
      assert !At(folders, env, built, i);
    }
    assert Grown(before, after, env, path);
    GrownKeepsAddressed(before, after, env, path, secrets, slugs);
  }

  lemma GrownKeepsAddressed(
    before: FolderTable, after: FolderTable, env: nat, path: string, secrets: SecretTable, slugs: Slugs)
    requires Grown(before, after, env, path) && Addressed(before, secrets, slugs)
    ensures Addressed(after, secrets, slugs)
  {
  }

  lemma PrefixPath(names: seq<string>, i: nat)
    requires Names(names) && i < |names|
    ensures JoinPath(PathOf(names[..i]), names[i]) == PathOf(names[..i + 1])
    ensures Absolute(PathOf(names[..i + 1])) && Absolute(PathOf(names))
    ensures IsAtOrUnder(PathOf(names), PathOf(names[..i + 1]))
  {
    JoinPathIsPathOf(names[..i], names[i]);
    assert names[..i] + [names[i]] == names[..i + 1];
    PathOfNames(names[..i + 1]);
    PathOfNames(names);
    AtOrUnderIff(PathOf(names), PathOf(names[..i + 1]));
  }

  lemma AtOrUnderTransitive(a: string, b: string, c: string)
    requires Absolute(a) && Absolute(b) && Absolute(c) && IsAtOrUnder(a, b) && IsAtOrUnder(b, c)
    ensures IsAtOrUnder(a, c)
  {
    AtOrUnderIff(a, b);
    AtOrUnderIff(b, c);
    AtOrUnderIff(a, c);
  }

  /** Creating the missing ancestors of a destination neither occupies it nor touches the source subtree. */
  lemma GrowthStaysClear(before: FolderTable, after: FolderTable, env: nat, oldPath: string, newPath: string)
    requires Absolute(oldPath) && Absolute(newPath) && newPath != "/" && !IsAtOrUnder(newPath, oldPath)
    requires Absolute(SplitPath(newPath).0) && Grown(before, after, env, SplitPath(newPath).0)
    requires !Occupied(before, env, newPath)
    ensures !Occupied(after, env, newPath)
    ensures forall id | id in after && id !in before :: !InSubtree(after, env, oldPath, id)
  {
    var parent := SplitPath(newPath).0;
    JoinInvertsSplit(newPath);
    ChildAtOrUnderIff(parent, SplitPath(newPath).1, oldPath);
    forall id | id in after ensures !At(after, env, newPath, id) {
      if id in before {
        assert !At(before, env, newPath, id);
      } else {
        assert |parent| < |newPath|;
      }
    }
    forall id | id in after && id !in before ensures !IsAtOrUnder(after[id].path, oldPath) {
      if IsAtOrUnder(after[id].path, oldPath) {
        AtOrUnderTransitive(parent, after[id].path, oldPath);
        assert false;
      }
    }
  }

  /** The whole effect of a move on the folder table. */
  ghost predicate Relocated(
    before: FolderTable, after: FolderTable, env: nat, node: nat, oldPath: string, newPath: string)
    requires Absolute(oldPath) && newPath != ""
  {
    var (parentPath, name) := SplitPath(newPath);
    && (exists parent | parent in after ::
       At(after, env, parentPath, parent) && node in after && after[node].parent == Some(parent))
    && (forall id | id in before :: id in after && RelocatedRow(before, after, env, node, id, name, oldPath, newPath))
    && (forall id | id in after && id !in before ::
          Live(after, id) && after[id].env == env && IsAtOrUnder(parentPath, after[id].path)
            && !Occupied(before, env, after[id].path))
  }

  ghost predicate RelocatedRow(
    before: FolderTable, after: FolderTable, env: nat, node: nat, id: nat, name: string, oldPath: string,
    newPath: string)
    requires id in before && id in after && Absolute(oldPath)
  {
    if !InSubtree(before, env, oldPath, id) then after[id] == before[id]
    else
      && Absolute(before[id].path) && after[id].path == Rebased(before[id].path, oldPath, newPath)
      && after[id] ==
           if id == node then before[id].(parent := after[id].parent, name := name, path := newPath)
           else before[id].(path := after[id].path)
  }

  lemma MovedIsRelocated(
    before: FolderTable, grown: FolderTable, env: nat, node: nat, parent: nat, oldPath: string, newPath: string)
    requires newPath != "" && Absolute(SplitPath(newPath).0)
    requires Grown(before, grown, env, SplitPath(newPath).0)
    requires Live(before, node)
    requires Movable(grown, env, node, parent, SplitPath(newPath).1, oldPath, newPath)
      && At(grown, env, SplitPath(newPath).0, parent)
    requires forall id | id in grown && id !in before :: !InSubtree(grown, env, oldPath, id)
    ensures Relocated(before, Moved(grown, env, node, parent, SplitPath(newPath).1, oldPath, newPath), env, node,
      oldPath, newPath)
  {
    var name := SplitPath(newPath).1;
    var after := Moved(grown, env, node, parent, name, oldPath, newPath);
    forall id | id in before ensures id in after && RelocatedRow(before, after, env, node, id, name, oldPath, newPath) {
      MovedPaths(grown, env, node, parent, name, oldPath, newPath, id);
    }
    forall id | id in after && id !in before ensures after[id] == grown[id] {
      MovedPaths(grown, env, node, parent, name, oldPath, newPath, id);
    }
    MovedPaths(grown, env, node, parent, name, oldPath, newPath, parent);
    LivePathAbsolute(grown, parent);
    ChildAtOrUnderIff(grown[parent].path, name, oldPath);
    MovedPaths(grown, env, node, parent, name, oldPath, newPath, node);
    assert At(after, env, SplitPath(newPath).0, parent);
  }

  lemma MoveIsSound(
    before: FolderTable, grown: FolderTable, secrets: SecretTable, slugs: Slugs, environments: set<nat>, bound: nat,
    env: nat, node: nat, parent: nat, oldPath: string, newPath: string)
    requires Rooted(before, environments) && Sound(grown, secrets, environments, bound, slugs)
    requires Absolute(oldPath) && Absolute(newPath) && oldPath != "/" && newPath != "/"
      && !IsAtOrUnder(newPath, oldPath)
    requires At(before, env, oldPath, node) && !Occupied(before, env, newPath)
    requires Absolute(SplitPath(newPath).0) && Grown(before, grown, env, SplitPath(newPath).0)
    requires At(grown, env, SplitPath(newPath).0, parent)
    ensures var after := Moved(grown, env, node, parent, SplitPath(newPath).1, oldPath, newPath);
            && Sound(after, RefreshSecretMrnPathsInSubtree(secrets, after, slugs, env, newPath), environments, bound,
               slugs)
            && Relocated(before, after, env, node, oldPath, newPath)
  {
    var name := SplitPath(newPath).1;
    JoinInvertsSplit(newPath);
    GrowthStaysClear(before, grown, env, oldPath, newPath);
    MoveKeepsTree(grown, env, node, parent, name, oldPath, newPath);
    RefreshRestoresNames(grown, secrets, slugs, env, node, parent, name, oldPath, newPath);
    MovedIsRelocated(before, grown, env, node, parent, oldPath, newPath);
    MovedKeys(grown, env, node, parent, name, oldPath, newPath);
    MoveKeepsRoots(before, Moved(grown, env, node, parent, name, oldPath, newPath), environments, env, node, oldPath,
      newPath);
  }

  lemma DeleteKeepsTree(folders: FolderTable, env: nat, path: string)
    requires Tree(folders) && Absolute(path)
    ensures Tree(SoftDeleteFolderSubtree(folders, env, path))
    ensures forall id | Live(folders, id) ::
      Live(SoftDeleteFolderSubtree(folders, env, path), id) <==> !InSubtree(folders, env, path, id)
  {
    var after := SoftDeleteFolderSubtree(folders, env, path);
    forall id | Live(folders, id)
      ensures Live(after, id) <==> !InSubtree(folders, env, path, id)
    {
      LivePathAbsolute(folders, id);
      SubtreePatternIff(folders[id].path, path);
    }
    forall id | Live(after, id) ensures WellPlaced(after, id) {
      assert WellPlaced(folders, id);
      if folders[id].parent.Some? {
        SubtreeHasParents(folders, env, path, id);
      }
    }
  }

  lemma DeleteKeepsAddressed(folders: FolderTable, secrets: SecretTable, slugs: Slugs, env: nat, path: string)
    requires Tree(folders) && Absolute(path) && Addressed(folders, secrets, slugs)
    ensures Addressed(SoftDeleteFolderSubtree(folders, env, path),
      SoftDeleteSecretsInFolderSubtree(secrets, folders, env, path), slugs)
  {
    forall id | id in secrets && !secrets[id].deleted && Live(folders, secrets[id].folder)
      ensures Selected(folders[secrets[id].folder].path, path) <==> IsAtOrUnder(folders[secrets[id].folder].path, path)
    {
      LivePathAbsolute(folders, secrets[id].folder);
      SubtreePatternIff(folders[secrets[id].folder].path, path);
    }
  }

  /** Exactly the rows of the subtree are marked, and exactly the live secrets in it. */
  lemma DeleteMarksExactly(folders: FolderTable, secrets: SecretTable, slugs: Slugs, env: nat, path: string)
    requires Tree(folders) && Absolute(path) && Addressed(folders, secrets, slugs)
    ensures SoftDeleteFolderSubtree(folders, env, path)
         == map id | id in folders ::
           if InSubtree(folders, env, path, id) then folders[id].(deleted := true) else folders[id]
    ensures SoftDeleteSecretsInFolderSubtree(secrets, folders, env, path)
         == map id | id in secrets ::
              if id in SecretsIn(folders, secrets, env, path) then secrets[id].(deleted := true) else secrets[id]
  {
    forall id | Live(folders, id) ensures Selected(folders[id].path, path) <==> IsAtOrUnder(folders[id].path, path) {
      LivePathAbsolute(folders, id);
      SubtreePatternIff(folders[id].path, path);
    }
  }

  /** The live secrets whose folder lies in a subtree. */
  function SecretsIn(folders: FolderTable, secrets: SecretTable, env: nat, path: string): set<nat> {
    set id | id in secrets && !secrets[id].deleted && InSubtree(folders, env, path, secrets[id].folder)
  }

  /** Every folder is of a known environment, and every environment has its root folder. */
  ghost predicate Rooted(folders: FolderTable, environments: set<nat>) {
    && (forall id | id in folders :: folders[id].env in environments)
    && (forall env | env in environments :: Occupied(folders, env, "/"))
  }

  lemma RootsRemain(before: FolderTable, after: FolderTable, environments: set<nat>)
    requires Rooted(before, environments)
    requires forall id | id in before :: id in after && after[id].env == before[id].env
    requires forall id | Live(before, id) && before[id].path == "/" :: after[id] == before[id]
    requires forall id | id in after && id !in before :: after[id].env in environments
    ensures Rooted(after, environments)
  {
    forall env | env in environments ensures Occupied(after, env, "/") {
      assert Occupied(before, env, "/");
      var root :| root in before && At(before, env, "/", root);
      assert At(after, env, "/", root);
    }
  }

  lemma MoveKeepsRoots(
    before: FolderTable, after: FolderTable, environments: set<nat>, env: nat, node: nat, oldPath: string,
    newPath: string)
    requires Rooted(before, environments) && env in environments
    requires Absolute(oldPath) && oldPath != "/" && newPath != ""
      && Relocated(before, after, env, node, oldPath, newPath)
    ensures Rooted(after, environments)
  {
    forall id | id in before
      ensures id in after && after[id].env == before[id].env
      ensures Live(before, id) && before[id].path == "/" ==> after[id] == before[id]
    {
      assert RelocatedRow(before, after, env, node, id, SplitPath(newPath).1, oldPath, newPath);
      RootIsUnderNothing(oldPath);
    }
    RootsRemain(before, after, environments);
  }

  lemma DeleteKeepsRoots(folders: FolderTable, environments: set<nat>, env: nat, path: string)
    requires Tree(folders) && Rooted(folders, environments) && Absolute(path) && path != "/"
    ensures Rooted(SoftDeleteFolderSubtree(folders, env, path), environments)
  {
    RootIsUnderNothing(path);
    DeleteKeepsTree(folders, env, path);
    RootsRemain(folders, SoftDeleteFolderSubtree(folders, env, path), environments);
  }

  lemma RootIsUnderNothing(path: string)
    requires Absolute(path) && path != "/"
    ensures !IsAtOrUnder("/", path)
  {
  }

  ghost predicate Below(ids: set<nat>, bound: nat) {
    forall id | id in ids :: id < bound
  }

  function WithRoot(folders: FolderTable, id: nat, env: nat): FolderTable {
    folders[id := Folder(env, None, "", "/", false)]
  }

  /** A new environment's root folder keeps every tree and adds one. */
  lemma RootKeepsTree(folders: FolderTable, id: nat, env: nat, environments: set<nat>)
    requires Tree(folders) && Rooted(folders, environments) && id !in folders && env !in environments
    ensures Tree(WithRoot(folders, id, env))
  {
    var after := WithRoot(folders, id, env);
    forall i | Live(after, i) ensures WellPlaced(after, i) {
      if i != id {
        assert WellPlaced(folders, i);
      }
    }
  }

  lemma RootIsRooted(folders: FolderTable, id: nat, env: nat, environments: set<nat>)
    requires Rooted(folders, environments) && id !in folders
    ensures Rooted(WithRoot(folders, id, env), environments + {env})
  {
    var after := WithRoot(folders, id, env);
    forall e | e in environments + {env} ensures Occupied(after, e, "/") {
      if e == env {
        assert At(after, env, "/", id);
      } else {
        assert Occupied(folders, e, "/");
        var root :| root in folders && At(folders, e, "/", root);
        assert At(after, e, "/", root);
      }
    }
  }

  lemma RootKeepsAddressed(folders: FolderTable, secrets: SecretTable, slugs: Slugs, id: nat, env: nat)
    requires Addressed(folders, secrets, slugs) && id !in folders
    ensures Addressed(WithRoot(folders, id, env), secrets, slugs)
  {
  }

  /** A secret row as it is first written, named after its folder. */
  function NewSecret(folders: FolderTable, slugs: Slugs, folder: nat, key: string): Secret
    requires folder in folders
  {
    var f := folders[folder];
    Secret(f.env, folder, key, MrnResourcePath(slugs(f.env), f.path, key), false)
  }

  lemma AddKeepsAddressed(folders: FolderTable, secrets: SecretTable, slugs: Slugs, id: nat, folder: nat, key: string)
    requires Addressed(folders, secrets, slugs) && Live(folders, folder)
    ensures Addressed(folders, secrets[id := NewSecret(folders, slugs, folder, key)], slugs)
  {
  }

  predicate Holds(secrets: SecretTable, folder: nat, key: string, id: nat) {
    id in secrets && !secrets[id].deleted && secrets[id].folder == folder && secrets[id].key == key
  }

  /** A folder has at most one live secret of a key. */
  ghost predicate OnePerKey(secrets: SecretTable) {
    forall i, j | i in secrets && j in secrets && !secrets[i].deleted && !secrets[j].deleted
      && secrets[i].folder == secrets[j].folder && secrets[i].key == secrets[j].key :: i == j
  }

  /** Rows that are only renamed or deleted leave it so. */
  lemma RenamedKeepsOnePerKey(before: SecretTable, after: SecretTable)
    requires OnePerKey(before) && after.Keys == before.Keys
    requires forall id | id in after ::
      after[id].folder == before[id].folder && after[id].key == before[id].key
        && (before[id].deleted ==> after[id].deleted)
    ensures OnePerKey(after)
  {
  }

  predicate AnotherHolds(secrets: SecretTable, id: nat)
    requires id in secrets
  {
    exists j | j in secrets ::
      j != id && !secrets[j].deleted && secrets[j].folder == secrets[id].folder && secrets[j].key == secrets[id].key
  }

  function WithChild(folders: FolderTable, id: nat, env: nat, parent: nat, name: string): FolderTable
    requires parent in folders
  {
    folders[id := Folder(env, Some(parent), name, JoinPath(folders[parent].path, name), false)]
  }

  lemma CreateIsSound(
    before: FolderTable, folders: FolderTable, id: nat, env: nat, parent: nat, name: string, path: string,
    secrets: SecretTable, slugs: Slugs, environments: set<nat>)
    requires Sound(folders, secrets, environments, id, slugs)
    requires Addressed(before, secrets, slugs) && Grown(before, folders, env, path)
    requires Live(folders, parent) && folders[parent].env == env && Name(name)
    requires !Occupied(folders, env, JoinPath(folders[parent].path, name))
    requires Absolute(JoinPath(folders[parent].path, name)) && IsAtOrUnder(path, JoinPath(folders[parent].path, name))
    ensures Sound(WithChild(folders, id, env, parent, name), secrets, environments, id + 1, slugs)
    ensures Grown(before, WithChild(folders, id, env, parent, name), env, path)
  {
    CreateGrows(before, folders, id, env, parent, name, path, secrets, slugs);
    RootsRemain(folders, WithChild(folders, id, env, parent, name), environments);
  }

  lemma PutIsSound(
    folders: FolderTable, secrets: SecretTable, environments: set<nat>, id: nat, slugs: Slugs, folder: nat, key: string)
    requires Sound(folders, secrets, environments, id, slugs) && Live(folders, folder)
    ensures Sound(folders, secrets[id := NewSecret(folders, slugs, folder, key)], environments, id + 1, slugs)
  {
    AddKeepsAddressed(folders, secrets, slugs, id, folder, key);
  }

  /** What every operation but a restore keeps of the two tables; ids are handed out below `bound`. */
  ghost predicate Sound(folders: FolderTable, secrets: SecretTable, environments: set<nat>, bound: nat, slugs: Slugs) {
    && Tree(folders) && Addressed(folders, secrets, slugs) && Rooted(folders, environments)
    && Below(folders.Keys, bound) && Below(secrets.Keys, bound)
  }

  class FolderService {
    var folders: FolderTable
    var secrets: SecretTable
    var environments: set<nat>
    var nextId: nat
    const slugs: Slugs

    ghost predicate Valid() reads this {
      Sound(folders, secrets, environments, nextId, slugs) && OnePerKey(secrets)
    }

    constructor (slugs: Slugs)
      ensures Valid() && folders == map[] && secrets == map[] && environments == {} && this.slugs == slugs
    {
      folders, secrets, environments, nextId := map[], map[], {}, 0;
      this.slugs := slugs;
    }

    /**
      CreateEnvironment: the row, under the id the database gives it, and its root
      folder, in one transaction. `taken` says whether its slug is, for good.
    */
    method CreateEnvironment(env: nat, taken: bool) returns (r: Result<nat, AppError>)
      requires Valid() && env !in environments
      modifies this`folders, this`environments, this`nextId
      ensures Valid()
      ensures r == if taken then Err(Conflict) else Ok(env)
      ensures taken ==> folders == old(folders) && environments == old(environments)
      ensures !taken ==> environments == old(environments) + {env}
      ensures !taken ==> folders == WithRoot(old(folders), old(nextId), env)
      ensures old(nextId) !in old(folders)
    {
      if taken {
        return Err(Conflict);
      }
      RootKeepsTree(folders, nextId, env, environments);
      RootIsRooted(folders, nextId, env, environments);
      RootKeepsAddressed(folders, secrets, slugs, nextId, env);
      folders := WithRoot(folders, nextId, env);
      environments, nextId := environments + {env}, nextId + 1;
      r := Ok(env);
    }

    method GetFolderByPath(env: nat, path: string) returns (r: Option<nat>)
      ensures r.Some? ==> At(folders, env, path, r.value)
      ensures r.Some? <==> Occupied(folders, env, path)
    {
      if id :| id in folders && At(folders, env, path, id) {
        r := Some(id);
      } else {
        r := None;
      }
    }

    /** One level of ensureFolderPath: the existing child, or a new one. */
    method EnsureChild(
      ghost before: FolderTable, env: nat, parent: nat, name: string, built: string, ghost normalized: string)
      returns (child: nat)
      requires Valid() && Addressed(before, secrets, slugs) && Grown(before, folders, env, normalized)
      requires Live(folders, parent) && folders[parent].env == env && Name(name)
        && built == JoinPath(folders[parent].path, name)
      requires Absolute(built) && IsAtOrUnder(normalized, built)
      modifies this`folders, this`nextId
      ensures Valid() && Grown(before, folders, env, normalized)
      ensures At(folders, env, built, child)
    {
      var existing := GetFolderByPath(env, built);
      if existing.Some? {
        return existing.value;
      }
      CreateIsSound(before, folders, nextId, env, parent, name, normalized, secrets, slugs, environments);
      folders := WithChild(folders, nextId, env, parent, name);
      child := nextId;
      nextId := nextId + 1;
    }

    /** The walk of ensureFolderPath from the root down, creating what is missing. */
    method WalkDown(env: nat, root: nat, names: seq<string>) returns (leaf: nat)
      requires Valid() && Names(names) && At(folders, env, "/", root)
      modifies this`folders, this`nextId
      ensures Valid() && At(folders, env, PathOf(names), leaf)
      ensures Grown(old(folders), folders, env, PathOf(names))
    {
      leaf := root;
      var built := "";
      for i := 0 to |names|
        invariant Valid() && Grown(old(folders), folders, env, PathOf(names))
        invariant built == if i == 0 then "" else PathOf(names[..i])
        invariant At(folders, env, PathOf(names[..i]), leaf)
      {
        PrefixPath(names, i);
        built := JoinPath(built, names[i]);
        leaf := EnsureChild(old(folders), env, leaf, names[i], built, PathOf(names));
      }
      assert names[..|names|] == names;
    }

    /** ensureFolderPath: the folder at a path, created with its missing ancestors. */
    method EnsureFolderPath(env: nat, normalized: string) returns (r: Result<nat, AppError>)
      requires Valid() && Absolute(normalized)
      modifies this`folders, this`nextId
      ensures Valid()
      ensures r.Ok? <==> env in environments
      ensures r.Err? ==> r == Err(NotFound) && folders == old(folders)
      ensures r.Ok? ==> At(folders, env, normalized, r.value) && Grown(old(folders), folders, env, normalized)
    {
      var root := GetFolderByPath(env, "/");
      assert root.Some? ==> folders[root.value].env in environments;
      if root.None? {
        return Err(NotFound);
      }
      var names := SplitSegments(normalized);
      NamesOfPath(normalized);
      var leaf := WalkDown(env, root.value, names);
      r := Ok(leaf);
    }

    /** The three writes of a move, in the order they are made. */
    method MoveSubtree(env: nat, node: nat, parent: nat, name: string, oldPath: string, newPath: string)
      requires var after := Moved(folders, env, node, parent, name, oldPath, newPath);
               Sound(after, RefreshSecretMrnPathsInSubtree(secrets, after, slugs, env, newPath), environments, nextId,
                 slugs)
      requires OnePerKey(secrets)
      modifies this`folders, this`secrets
      ensures Valid()
      ensures folders == Moved(old(folders), env, node, parent, name, oldPath, newPath)
      ensures secrets == RefreshSecretMrnPathsInSubtree(old(secrets), folders, slugs, env, newPath)
    {
      folders := ReparentFolder(folders, node, parent, name, newPath);
      folders := MoveFolderSubtreePaths(folders, env, oldPath, newPath);
      RenamedKeepsOnePerKey(secrets, RefreshSecretMrnPathsInSubtree(secrets, folders, slugs, env, newPath));
      secrets := RefreshSecretMrnPathsInSubtree(secrets, folders, slugs, env, newPath);
    }

    /** The transaction of a move that nothing refuses. */
    method Relocate(env: nat, node: nat, oldPath: string, newPath: string)
      requires Valid() && Absolute(oldPath) && Absolute(newPath)
      requires oldPath != "/" && newPath != "/" && !IsAtOrUnder(newPath, oldPath)
      requires At(folders, env, oldPath, node) && !Occupied(folders, env, newPath)
      modifies this`folders, this`secrets, this`nextId
      ensures Valid() && Relocated(old(folders), folders, env, node, oldPath, newPath)
      ensures secrets == RefreshSecretMrnPathsInSubtree(old(secrets), folders, slugs, env, newPath)
    {
      var (newParentPath, newName) := SplitPath(newPath);
      JoinInvertsSplit(newPath);
      assert folders[node].env in environments;
      var newParent := EnsureFolderPath(env, newParentPath);
      MoveGrown(old(folders), env, node, newParent.value, newName, oldPath, newPath);
    }

    /** The rest of that transaction, once the destination's parent is there. */
    method MoveGrown(
      ghost before: FolderTable, env: nat, node: nat, parent: nat, name: string, oldPath: string, newPath: string)
      requires Valid() && Rooted(before, environments) && Absolute(oldPath) && Absolute(newPath)
      requires oldPath != "/" && newPath != "/" && !IsAtOrUnder(newPath, oldPath)
      requires At(before, env, oldPath, node) && !Occupied(before, env, newPath)
      requires Absolute(SplitPath(newPath).0) && name == SplitPath(newPath).1
      requires Grown(before, folders, env, SplitPath(newPath).0) && At(folders, env, SplitPath(newPath).0, parent)
      modifies this`folders, this`secrets
      ensures Valid() && Relocated(before, folders, env, node, oldPath, newPath)
      ensures secrets == RefreshSecretMrnPathsInSubtree(old(secrets), folders, slugs, env, newPath)
    {
      MoveIsSound(before, folders, secrets, slugs, environments, nextId, env, node, parent, oldPath, newPath);
      MoveSubtree(env, node, parent, name, oldPath, newPath);
    }

    /**
      MoveFolder, on normalized paths. Each refusal leaves both tables alone; a
      move that is carried out re-roots exactly the subtree, creates exactly the
      missing ancestors, and leaves every live secret named after its folder.
    */
    method MoveFolder(env: nat, oldPath: string, newPath: string) returns (r: Result<nat, AppError>)
      requires Valid() && Absolute(oldPath) && Absolute(newPath)
      modifies this`folders, this`secrets, this`nextId
      ensures Valid()
      ensures r.Err? ==> folders == old(folders) && secrets == old(secrets)
      ensures r == Err(Forbidden) <==> oldPath == "/"
      ensures r == Err(Validation) <==> oldPath != "/" && (newPath == "/" || IsAtOrUnder(newPath, oldPath))
      ensures r == Err(NotFound) <==>
        oldPath != "/" && newPath != "/" && !IsAtOrUnder(newPath, oldPath) && !Occupied(old(folders), env, oldPath)
      ensures r == Err(Conflict) <==>
        oldPath != "/" && newPath != "/" && !IsAtOrUnder(newPath, oldPath)
        && Occupied(old(folders), env, oldPath) && Occupied(old(folders), env, newPath)
      ensures r.Err? ==> r.error in {Forbidden, Validation, NotFound, Conflict}
      ensures r.Ok? ==>
        && At(old(folders), env, oldPath, r.value)
        && Relocated(old(folders), folders, env, r.value, oldPath, newPath)
        && secrets.Keys == old(secrets).Keys
        && forall id | id in secrets :: secrets[id] ==
             if old(secrets)[id].deleted then old(secrets)[id] else old(secrets)[id].(mrnPath := secrets[id].mrnPath)
    {
      if oldPath == "/" {
        return Err(Forbidden);
      }
      if newPath == "/" || oldPath == newPath || IsAtOrUnder(newPath, oldPath) {
        return Err(Validation);
      }
      var node := GetFolderByPath(env, oldPath);
      if node.None? {
        return Err(NotFound);
      }
      var taken := GetFolderByPath(env, newPath);
      if taken.Some? {
        return Err(Conflict);
      }
      Relocate(env, node.value, oldPath, newPath);
      r := Ok(node.value);
    }

    /**
      DeleteFolder: exactly the folders of the subtree and exactly the live secrets in
      them are marked deleted, and the secrets are counted.
    */
    method DeleteFolder(env: nat, path: string) returns (r: Result<nat, AppError>)
      requires Valid() && Absolute(path)
      modifies this`folders, this`secrets
      ensures Valid()
      ensures r.Ok? <==> path != "/" && Occupied(old(folders), env, path)
      ensures r.Err? ==> folders == old(folders) && secrets == old(secrets)
      ensures r == Err(Forbidden) <==> path == "/"
      ensures r == Err(NotFound) <==> path != "/" && !Occupied(old(folders), env, path)
      ensures r.Ok? ==>
        && folders == (map id | id in old(folders) ::
             if InSubtree(old(folders), env, path, id) then old(folders)[id].(deleted := true) else old(folders)[id])
        && secrets == (map id | id in old(secrets) ::
             if id in SecretsIn(old(folders), old(secrets), env, path) then old(secrets)[id].(deleted := true)
             else old(secrets)[id])
        && r.value == |SecretsIn(old(folders), old(secrets), env, path)|
    {
      if path == "/" {
        return Err(Forbidden);
      }
      var found := GetFolderByPath(env, path);
      if found.None? {
        return Err(NotFound);
      }
      DeleteKeepsTree(folders, env, path);
      DeleteKeepsRoots(folders, environments, env, path);
      DeleteKeepsAddressed(folders, secrets, slugs, env, path);
      DeleteMarksExactly(folders, secrets, slugs, env, path);
      RenamedKeepsOnePerKey(secrets, SoftDeleteSecretsInFolderSubtree(secrets, folders, env, path));
      r := Ok(|SecretsIn(folders, secrets, env, path)|);
      secrets := SoftDeleteSecretsInFolderSubtree(secrets, folders, env, path);
      folders := SoftDeleteFolderSubtree(folders, env, path);
    }

    /**
      PutSecret, as far as its row goes: the folder, created on request, and in it the
      live secret of that key, or a new one named after the folder.
    */
    method PutSecret(env: nat, path: string, key: string, createFolders: bool) returns (r: Result<nat, AppError>)
      requires Valid() && Absolute(path)
      modifies this`folders, this`secrets, this`nextId
      ensures Valid()
      ensures r.Ok? <==> env in environments && (createFolders || Occupied(old(folders), env, path))
      ensures r.Err? ==> r == Err(NotFound) && folders == old(folders) && secrets == old(secrets)
      ensures r.Ok? ==> Grown(old(folders), folders, env, path) && (!createFolders ==> folders == old(folders))
      ensures r.Ok? ==>
        && r.value in secrets && Live(folders, secrets[r.value].folder)
        && At(folders, env, path, secrets[r.value].folder) && Holds(secrets, secrets[r.value].folder, key, r.value)
        && (r.value in old(secrets) <==>
              exists id :: Holds(old(secrets), secrets[r.value].folder, key, id))
        && (r.value in old(secrets) ==> secrets == old(secrets))
        && (r.value !in old(secrets) ==>
              secrets == old(secrets)[r.value := NewSecret(folders, slugs, secrets[r.value].folder, key)])
    {
      if env !in environments {
        return Err(NotFound);
      }
      var folder: nat;
      if createFolders {
        var ensured := EnsureFolderPath(env, path);
        folder := ensured.value;
      } else {
        var found := GetFolderByPath(env, path);
        if found.None? {
          return Err(NotFound);
        }
        folder := found.value;
      }
      var id := PutRow(folder, key);
      r := Ok(id);
    }

    /** The row of that key in a live folder, found or written. */
    method PutRow(folder: nat, key: string) returns (id: nat)
      requires Valid() && Live(folders, folder)
      modifies this`secrets, this`nextId
      ensures Valid() && Holds(secrets, folder, key, id)
      ensures id in old(secrets) <==> exists i :: Holds(old(secrets), folder, key, i)
      ensures id in old(secrets) ==> secrets == old(secrets)
      ensures id !in old(secrets) ==> secrets == old(secrets)[id := NewSecret(folders, slugs, folder, key)]
    {
      if existing :| existing in secrets && Holds(secrets, folder, key, existing) {
        return existing;
      }
      PutIsSound(folders, secrets, environments, nextId, slugs, folder, key);
      id := nextId;
      secrets := secrets[id := NewSecret(folders, slugs, folder, key)];
      nextId := nextId + 1;
    }

    /**
      RestoreSecret. The row is live again before the folder is looked up, and its
      name is the one it was deleted with: the addresses stay right if and only if
      the folder is still there and was not moved meanwhile.
    */
    method RestoreSecret(id: nat) returns (r: Result<(), AppError>)
      requires Valid()
      modifies this`secrets
      ensures Tree(folders) && Rooted(folders, environments) && OnePerKey(secrets)
      ensures r.Ok? ==> id in old(secrets) && old(secrets)[id].deleted && Live(folders, old(secrets)[id].folder)
      ensures r == Err(Conflict) <==> id in old(secrets) && old(secrets)[id].deleted && AnotherHolds(old(secrets), id)
      ensures id in old(secrets) && old(secrets)[id].deleted && !AnotherHolds(old(secrets), id) ==>
        && secrets == old(secrets)[id := old(secrets)[id].(deleted := false)]
        && (r == Ok(()) <==> Live(folders, old(secrets)[id].folder))
        && (Addressed(folders, secrets, slugs) <==>
              && Live(folders, secrets[id].folder) && folders[secrets[id].folder].env == secrets[id].env
              && NamedAfter(secrets[id], folders, slugs))
      ensures !(id in old(secrets) && old(secrets)[id].deleted && !AnotherHolds(old(secrets), id)) ==>
        r.Err? && secrets == old(secrets)
      ensures r.Err? ==> r.error == Conflict || r.error == NotFound
    {
      if id !in secrets || !secrets[id].deleted {
        return Err(NotFound);
      }
      if AnotherHolds(secrets, id) {
        return Err(Conflict);
      }
      ghost var others := secrets;
      secrets := secrets[id := secrets[id].(deleted := false)];
      assert forall j | j in secrets && j != id :: secrets[j] == others[j];
      assert forall j | j in others && j != id && !others[j].deleted ::
        others[j].folder != others[id].folder || others[j].key != others[id].key;
      assert !secrets[id].deleted;
      if Live(folders, secrets[id].folder) {
        r := Ok(());
      } else {
        r := Err(NotFound);
      }
    }
  }
}
