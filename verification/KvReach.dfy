/** What a walk of the KV tree reports, said entry by entry: the secrets at the end of a chain of folders. */
module KvReach {
  import opened KvWalk

  /** dir is reached from root through these names, each an entry with a slash of the folder before. */
  ghost predicate Leads(kv: Tree, root: string, names: seq<string>, dir: string)
    decreases |names|
  {
    if names == [] then dir == root
    else
      var last := names[|names| - 1];
      exists up :: Leads(kv, root, names[..|names| - 1], up) && IsIn(kv, up, last + "/") && dir == up + "/" + last
  }

  predicate IsIn(kv: Tree, dir: string, entry: string) {
    kv(dir).Keys? && entry in kv(dir).keys
  }

  /** An entry without a slash on its end. */
  ghost predicate IsPlain(entry: string) {
    forall name: string :: entry != name + "/"
  }

  ghost predicate Reached(kv: Tree, root: string, dir: string) {
    exists names :: Leads(kv, root, names, dir)
  }

  /** A secret of the tree: a plain entry of a folder that is reached. */
  ghost predicate IsSecret(kv: Tree, root: string, path: string) {
    exists dir, entry :: Reached(kv, root, dir) && IsIn(kv, dir, entry) && IsPlain(entry) && path == dir + "/" + entry
  }

  // ---- One listing ----

  lemma SlashIff(k: string)
    ensures IsFolder(k) <==> !IsPlain(k)
    ensures IsFolder(k) ==> k == k[..|k| - 1] + "/"
  {
    if IsFolder(k) { assert k == k[..|k| - 1] + "/"; }
    if !IsPlain(k) {
      var name: string :| k == name + "/";
      assert k[|k| - 1] == '/';
    }
  }

  lemma {:induction false} FolderIn(dir: string, keys: seq<string>, path: string)
    ensures path in FoldersIn(dir, keys) <==> exists name :: name + "/" in keys && path == dir + "/" + name
  {
    if keys != [] {
      var n := |keys| - 1;
      var k := keys[n];
      FolderIn(dir, keys[..n], path);
      SlashIff(k);
      assert keys == keys[..n] + [k];
      if IsFolder(k) && path == Full(dir, k) {
        assert k[..|k| - 1] + "/" in keys;
      }
      if name :| name + "/" in keys && path == dir + "/" + name {
        if name + "/" == k { assert k[..|k| - 1] == name && IsFolder(k); }
      }
    }
  }

  lemma {:induction false} SecretIn(dir: string, keys: seq<string>, path: string)
    ensures path in SecretsIn(dir, keys) <==> exists k :: k in keys && IsPlain(k) && path == dir + "/" + k
  {
    if keys != [] {
      var n := |keys| - 1;
      SecretIn(dir, keys[..n], path);
      SlashIff(keys[n]);
      assert keys == keys[..n] + [keys[n]];
    }
  }

  // ---- Levels ----

  lemma {:induction false} BelowIff(below: string -> seq<string>, dirs: seq<string>, dir: string)
    ensures dir in Below(below, dirs) <==> exists up :: up in dirs && dir in below(up)
  {
    if dirs != [] {
      var n := |dirs| - 1;
      BelowIff(below, dirs[..n], dir);
      assert dirs == dirs[..n] + [dirs[n]];
    }
  }

  lemma ChildIff(kv: Tree, up: string, dir: string)
    ensures dir in ChildrenOf(kv)(up) <==> exists name :: IsIn(kv, up, name + "/") && dir == up + "/" + name
  {
    if kv(up).Keys? { FolderIn(up, kv(up).keys, dir); }
  }

  ghost predicate LedAt(kv: Tree, root: string, depth: nat, dir: string) {
    exists names :: |names| == depth && Leads(kv, root, names, dir)
  }

  lemma OneMoreName(kv: Tree, root: string, depth: nat, up: string, dir: string)
    requires LedAt(kv, root, depth, up) && dir in ChildrenOf(kv)(up)
    ensures LedAt(kv, root, depth + 1, dir)
  {
    ChildIff(kv, up, dir);
    var names :| |names| == depth && Leads(kv, root, names, up);
    var name :| IsIn(kv, up, name + "/") && dir == up + "/" + name;
    var all := names + [name];
    assert all[..|all| - 1] == names && all[|all| - 1] == name;
    assert Leads(kv, root, all, dir);
  }

  lemma OneNameLess(kv: Tree, root: string, depth: nat, dir: string) returns (up: string)
    requires LedAt(kv, root, depth + 1, dir)
    ensures LedAt(kv, root, depth, up) && dir in ChildrenOf(kv)(up)
  {
    var names :| |names| == depth + 1 && Leads(kv, root, names, dir);
    var last := names[|names| - 1];
    up :| Leads(kv, root, names[..|names| - 1], up) && IsIn(kv, up, last + "/") && dir == up + "/" + last;
    ChildIff(kv, up, dir);
  }

  lemma {:induction false} LevelLed(kv: Tree, root: string, depth: nat, dir: string)
    requires dir in Level(kv, root, depth)
    ensures LedAt(kv, root, depth, dir)
    decreases depth
  {
    if depth == 0 {
      assert Leads(kv, root, [], root);
    } else {
      BelowIff(ChildrenOf(kv), Level(kv, root, depth - 1), dir);
      var up :| up in Level(kv, root, depth - 1) && dir in ChildrenOf(kv)(up);
      LevelLed(kv, root, depth - 1, up);
      OneMoreName(kv, root, depth - 1, up, dir);
    }
  }

  lemma {:induction false} LedInLevel(kv: Tree, root: string, depth: nat, dir: string)
    requires LedAt(kv, root, depth, dir)
    ensures dir in Level(kv, root, depth)
    decreases depth
  {
    if depth == 0 {
      assert Level(kv, root, 0)[0] == root;
    } else {
      var up := OneNameLess(kv, root, depth - 1, dir);
      LedInLevel(kv, root, depth - 1, up);
      BelowIff(ChildrenOf(kv), Level(kv, root, depth - 1), dir);
    }
  }

  /** A level holds the folders that so many names lead to. */
  lemma LevelIff(kv: Tree, root: string, depth: nat, dir: string)
    ensures dir in Level(kv, root, depth) <==> LedAt(kv, root, depth, dir)
  {
    if dir in Level(kv, root, depth) { LevelLed(kv, root, depth, dir); }
    if LedAt(kv, root, depth, dir) { LedInLevel(kv, root, depth, dir); }
  }

  // ---- What is met ----

  lemma {:induction false} SumIff(weight: string -> nat, dirs: seq<string>)
    ensures Sum(weight, dirs) > 0 <==> exists d :: d in dirs && weight(d) > 0
  {
    if dirs != [] {
      var n := |dirs| - 1;
      SumIff(weight, dirs[..n]);
      assert dirs == dirs[..n] + [dirs[n]];
    }
  }

  ghost predicate MetAt(kv: Tree, root: string, depth: nat, what: Item) {
    exists dir :: dir in Level(kv, root, depth) && Visit(kv, dir, what) > 0
  }

  lemma LevelMet(kv: Tree, root: string, depth: nat, what: Item)
    ensures Sum(Meets(kv, what), Level(kv, root, depth)) > 0 <==> MetAt(kv, root, depth, what)
  {
    SumIff(Meets(kv, what), Level(kv, root, depth));
    forall dir ensures Meets(kv, what)(dir) == Visit(kv, dir, what) {}
  }

  lemma OneLevelMore(kv: Tree, root: string, depth: nat, what: Item)
    ensures Total(kv, root, depth + 1, what) > 0 <==> Total(kv, root, depth, what) > 0 || MetAt(kv, root, depth, what)
  {
    NextTotal(kv, root, depth, what);
    LevelMet(kv, root, depth, what);
  }

  /** What grows exactly at some steps has grown by now if and only if one of them is behind. */
  lemma {:induction false} GrownIff(grown: nat -> bool, grows: nat -> bool, n: nat)
    requires !grown(0) && forall d: nat :: grown(d + 1) <==> grown(d) || grows(d)
    ensures grown(n) <==> exists d: nat :: d < n && grows(d)
  {
    if n > 0 {
      GrownIff(grown, grows, n - 1);
      assert grown(n - 1 + 1) <==> grown(n - 1) || grows(n - 1);
    }
  }

  lemma TotalIff(kv: Tree, root: string, depth: nat, what: Item)
    ensures Total(kv, root, depth, what) > 0 <==> exists d: nat :: d < depth && MetAt(kv, root, d, what)
  {
    ghost var grown, grows := (d: nat) => Total(kv, root, d, what) > 0, (d: nat) => MetAt(kv, root, d, what);
    forall d: nat ensures grown(d + 1) <==> grown(d) || grows(d) {
      OneLevelMore(kv, root, d, what);
    }
    GrownIff(grown, grows, depth);
    assert grown(depth) <==> Total(kv, root, depth, what) > 0;
    forall d: nat ensures grows(d) <==> MetAt(kv, root, d, what) {}
  }

  lemma VisitSecret(kv: Tree, dir: string, path: string)
    ensures Visit(kv, dir, Secret(path)) > 0 <==> exists k :: IsIn(kv, dir, k) && IsPlain(k) && path == dir + "/" + k
  {
    if kv(dir).Keys? { SecretIn(dir, kv(dir).keys, path); }
  }

  lemma MetSecretIff(kv: Tree, root: string, path: string)
    ensures IsSecret(kv, root, path) <==> exists d: nat :: MetAt(kv, root, d, Secret(path))
  {
    if IsSecret(kv, root, path) {
      var dir, k :| Reached(kv, root, dir) && IsIn(kv, dir, k) && IsPlain(k) && path == dir + "/" + k;
      var names :| Leads(kv, root, names, dir);
      LevelIff(kv, root, |names|, dir);
      VisitSecret(kv, dir, path);
      assert MetAt(kv, root, |names|, Secret(path));
    }
    if d: nat :| MetAt(kv, root, d, Secret(path)) {
      var dir :| dir in Level(kv, root, d) && Visit(kv, dir, Secret(path)) > 0;
      LevelIff(kv, root, d, dir);
      VisitSecret(kv, dir, path);
    }
  }

  lemma MetDeniedIff(kv: Tree, root: string, dir: string)
    ensures Reached(kv, root, dir) && kv(dir).Refused? <==> exists d: nat :: MetAt(kv, root, d, Denied(dir))
  {
    if Reached(kv, root, dir) && kv(dir).Refused? {
      var names :| Leads(kv, root, names, dir);
      LevelIff(kv, root, |names|, dir);
      assert MetAt(kv, root, |names|, Denied(dir));
    }
    if d: nat :| MetAt(kv, root, d, Denied(dir)) {
      var at :| at in Level(kv, root, d) && Visit(kv, at, Denied(dir)) > 0;
      LevelIff(kv, root, d, at);
    }
  }

  lemma NothingDeeper(kv: Tree, root: string, depth: nat, d: nat, what: Item)
    requires Level(kv, root, depth) == [] && MetAt(kv, root, d, what)
    ensures d < depth
  {
    if d >= depth { EmptyBelow(kv, root, depth, d); }
  }

  lemma EmptyBelow(kv: Tree, root: string, depth: nat, d: nat)
    requires Level(kv, root, depth) == [] && d >= depth
    ensures Level(kv, root, d) == []
  {
    NothingPastTheEnd(ChildrenOf(kv), dir => 0, [root], depth, d - depth);
  }

  /** Whatever a walk reports is in the tree. */
  lemma ReportIsReached(kv: Tree, root: string, depth: nat, w: Outcome)
    requires w.Walked? && Part(kv, root, depth, w)
    ensures forall path | path in w.secrets :: IsSecret(kv, root, path)
    ensures forall dir | dir in w.denied :: Reached(kv, root, dir) && kv(dir).Refused?
  {
    forall path | path in w.secrets ensures IsSecret(kv, root, path) {
      assert Reported(w, Secret(path)) > 0;
      TotalIff(kv, root, depth, Secret(path));
      MetSecretIff(kv, root, path);
    }
    forall dir | dir in w.denied ensures Reached(kv, root, dir) && kv(dir).Refused? {
      assert Reported(w, Denied(dir)) > 0;
      TotalIff(kv, root, depth, Denied(dir));
      MetDeniedIff(kv, root, dir);
    }
  }

  /** A walk that was not capped reports exactly the secrets of the tree, and the folders of it that refuse. */
  lemma WholeIsReached(kv: Tree, root: string, depth: nat, w: Outcome)
    requires w.Walked? && Whole(kv, root, depth, w)
    ensures forall path :: path in w.secrets <==> IsSecret(kv, root, path)
    ensures forall dir :: dir in w.denied <==> Reached(kv, root, dir) && kv(dir).Refused?
  {
    forall path ensures path in w.secrets <==> IsSecret(kv, root, path) {
      assert path in w.secrets <==> Reported(w, Secret(path)) > 0;
      WholeMeets(kv, root, depth, w, Secret(path));
      MetSecretIff(kv, root, path);
    }
    forall dir ensures dir in w.denied <==> Reached(kv, root, dir) && kv(dir).Refused? {
      assert dir in w.denied <==> Reported(w, Denied(dir)) > 0;
      WholeMeets(kv, root, depth, w, Denied(dir));
      MetDeniedIff(kv, root, dir);
    }
  }

  lemma WholeMeets(kv: Tree, root: string, depth: nat, w: Outcome, what: Item)
    requires w.Walked? && Whole(kv, root, depth, w) && what != Entry
    ensures Reported(w, what) > 0 <==> exists d: nat :: MetAt(kv, root, d, what)
  {
    TotalIff(kv, root, depth, what);
    forall d: nat | MetAt(kv, root, d, what) ensures d < depth {
      NothingDeeper(kv, root, depth, d, what);
    }
  }
}
