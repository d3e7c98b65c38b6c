/** A walk of the KV tree, one depth at a time, against a recursive traversal of the same tree. */
module KvWalk {
  import opened SortedStrings

  /** What listing a folder answers: entry names, folders among them ending in a slash, or an error. */
  datatype Answer = Keys(keys: seq<string>) | Refused | NotFound | Broken

  type Tree = string -> Answer

  predicate IsFolder(k: string) {
    k != "" && k[|k| - 1] == '/'
  }

  function Full(dir: string, k: string): string {
    dir + "/" + if IsFolder(k) then k[..|k| - 1] else k
  }

  function FoldersIn(dir: string, keys: seq<string>): (r: seq<string>)
    ensures |r| <= |keys|
  {
    if keys == [] then []
    else
      var k := keys[|keys| - 1];
      FoldersIn(dir, keys[..|keys| - 1]) + if IsFolder(k) then [Full(dir, k)] else []
  }

  function SecretsIn(dir: string, keys: seq<string>): seq<string> {
    if keys == [] then []
    else
      var k := keys[|keys| - 1];
      SecretsIn(dir, keys[..|keys| - 1]) + if IsFolder(k) then [] else [Full(dir, k)]
  }

  /** What a walk can meet: a secret, a folder that refuses, one entry of a listing, a folder that answers. */
  datatype Item = Secret(path: string) | Denied(dir: string) | Entry | Folder

  /** How many times listing this folder meets the item. */
  function Visit(kv: Tree, dir: string, what: Item): nat {
    match kv(dir)
    case Keys(keys) => Met(dir, keys, what) + if what.Folder? then 1 else 0
    case Refused => if what == Denied(dir) then 1 else 0
    case _ => 0
  }

  function Met(dir: string, keys: seq<string>, what: Item): nat {
    match what
    case Secret(path) => multiset(SecretsIn(dir, keys))[path]
    case Entry => |keys|
    case _ => 0
  }

  function Children(kv: Tree, dir: string): seq<string> {
    match kv(dir)
    case Keys(keys) => FoldersIn(dir, keys)
    case _ => []
  }

  // ---- Any tree: recursive traversal and level by level ----

  /** The sum of a weight over the recursive traversal, to a given depth: each folder, then everything
      below it. */
  function Traverse(below: string -> seq<string>, weight: string -> nat, dirs: seq<string>, depth: nat): nat
    decreases depth, |dirs|
  {
    if depth == 0 || dirs == [] then 0
    else
      var front, last := dirs[..|dirs| - 1], dirs[|dirs| - 1];
      Traverse(below, weight, front, depth) + weight(last) + Traverse(below, weight, below(last), depth - 1)
  }

  function Below(below: string -> seq<string>, dirs: seq<string>): seq<string> {
    if dirs == [] then [] else Below(below, dirs[..|dirs| - 1]) + below(dirs[|dirs| - 1])
  }

  function Sum(weight: string -> nat, dirs: seq<string>): nat {
    if dirs == [] then 0 else Sum(weight, dirs[..|dirs| - 1]) + weight(dirs[|dirs| - 1])
  }

  /** The folders at one depth below dirs. */
  function Frontier(below: string -> seq<string>, dirs: seq<string>, depth: nat): seq<string> {
    if depth == 0 then dirs else Below(below, Frontier(below, dirs, depth - 1))
  }

  /** The same sum, level by level. */
  function Levels(below: string -> seq<string>, weight: string -> nat, dirs: seq<string>, depth: nat): nat {
    if depth == 0 then 0
    else Levels(below, weight, dirs, depth - 1) + Sum(weight, Frontier(below, dirs, depth - 1))
  }

  lemma {:induction false} TraverseSplit(below: string -> seq<string>, weight: string -> nat, a: seq<string>,
      b: seq<string>, depth: nat)
    ensures Traverse(below, weight, a + b, depth) == Traverse(below, weight, a, depth) + Traverse(below, weight, b, depth)
    decreases |b|
  {
    if b == [] {
      assert a + b == a;
    } else if depth > 0 {
      assert (a + b)[..|a + b| - 1] == a + b[..|b| - 1];
      TraverseSplit(below, weight, a, b[..|b| - 1], depth);
    }
  }

  /** One level off the top of the recursive traversal. */
  lemma {:induction false} TraverseByLevel(below: string -> seq<string>, weight: string -> nat, dirs: seq<string>,
      depth: nat)
    ensures Traverse(below, weight, dirs, depth + 1) == Sum(weight, dirs) + Traverse(below, weight, Below(below, dirs), depth)
    decreases |dirs|
  {
    if dirs != [] {
      var front, last := dirs[..|dirs| - 1], dirs[|dirs| - 1];
      TraverseByLevel(below, weight, front, depth);
      TraverseSplit(below, weight, Below(below, front), below(last), depth);
    }
  }

  lemma {:induction false} FrontierOfBelow(below: string -> seq<string>, dirs: seq<string>, depth: nat)
    ensures Frontier(below, Below(below, dirs), depth) == Frontier(below, dirs, depth + 1)
  {
    if depth > 0 { FrontierOfBelow(below, dirs, depth - 1); }
  }

  lemma {:induction false} LevelsFromTop(below: string -> seq<string>, weight: string -> nat, dirs: seq<string>,
      depth: nat)
    ensures Levels(below, weight, dirs, depth + 1) == Sum(weight, dirs) + Levels(below, weight, Below(below, dirs), depth)
  {
    if depth > 0 {
      LevelsFromTop(below, weight, dirs, depth - 1);
      FrontierOfBelow(below, dirs, depth - 1);
    }
  }

  /** Level by level sums what the recursive traversal sums. */
  lemma {:induction false} LevelsAreTraversal(below: string -> seq<string>, weight: string -> nat, dirs: seq<string>,
      depth: nat)
    ensures Levels(below, weight, dirs, depth) == Traverse(below, weight, dirs, depth)
    decreases depth
  {
    if depth > 0 {
      LevelsFromTop(below, weight, dirs, depth - 1);
      TraverseByLevel(below, weight, dirs, depth - 1);
      LevelsAreTraversal(below, weight, Below(below, dirs), depth - 1);
    }
  }

  /** Once a level is empty so are all deeper ones. */
  lemma {:induction false} NothingPastTheEnd(below: string -> seq<string>, weight: string -> nat, dirs: seq<string>,
      depth: nat, more: nat)
    requires Frontier(below, dirs, depth) == []
    ensures Frontier(below, dirs, depth + more) == []
    ensures Levels(below, weight, dirs, depth + more) == Levels(below, weight, dirs, depth)
    decreases more
  {
    if more > 0 { NothingPastTheEnd(below, weight, dirs, depth, more - 1); }
  }

  lemma {:induction false} DeeperSumsMore(below: string -> seq<string>, weight: string -> nat, dirs: seq<string>,
      a: nat, b: nat)
    requires a <= b
    ensures Levels(below, weight, dirs, a) <= Levels(below, weight, dirs, b)
    decreases b
  {
    if a < b { DeeperSumsMore(below, weight, dirs, a, b - 1); }
  }

  /** The whole tree has at least what its first levels have. */
  lemma TraversalGrows(below: string -> seq<string>, weight: string -> nat, dirs: seq<string>, depth: nat, end: nat)
    requires Frontier(below, dirs, end) == []
    ensures Traverse(below, weight, dirs, depth) <= Traverse(below, weight, dirs, end)
  {
    LevelsAreTraversal(below, weight, dirs, depth);
    LevelsAreTraversal(below, weight, dirs, end);
    if depth <= end {
      DeeperSumsMore(below, weight, dirs, depth, end);
    } else {
      NothingPastTheEnd(below, weight, dirs, end, depth - end);
    }
  }

  // ---- The walk ----

  function ChildrenOf(kv: Tree): string -> seq<string> {
    dir => Children(kv, dir)
  }

  function Meets(kv: Tree, what: Item): string -> nat {
    dir => Visit(kv, dir, what)
  }

  datatype Found = Found(secrets: seq<string>, denied: seq<string>, folders: nat, seen: nat)

  function Count(f: Found, what: Item): nat {
    match what
    case Secret(path) => multiset(f.secrets)[path]
    case Denied(dir) => multiset(f.denied)[dir]
    case Entry => f.seen
    case Folder => f.folders
  }

  /** f with more holds what f held and what the folders in dirs hold. */
  ghost predicate Gathered(kv: Tree, f: Found, dirs: seq<string>, more: Found) {
    forall what :: Count(more, what) == Count(f, what) + Sum(Meets(kv, what), dirs)
  }

  ghost predicate GatheredSome(kv: Tree, f: Found, dirs: seq<string>, more: Found) {
    forall what :: Count(f, what) <= Count(more, what) <= Count(f, what) + Sum(Meets(kv, what), dirs)
  }

  function Indices(n: nat): (r: set<nat>)
    ensures forall i: nat :: i in r <==> i < n
  {
    if n == 0 then {} else Indices(n - 1) + {n - 1}
  }

  /** Lists every folder of one level. The calls finish in any order; each answer goes to its own place. */
  method ListLevel(kv: Tree, dirs: seq<string>) returns (results: array<Answer>)
    ensures fresh(results) && results.Length == |dirs|
    ensures forall i | 0 <= i < |dirs| :: results[i] == kv(dirs[i])
  {
    results := new Answer[|dirs|](i => Broken);
    var running := Indices(|dirs|);
    ghost var all := running;
    while running != {}
      invariant running <= all
      invariant forall i | 0 <= i < |dirs| :: i in running || results[i] == kv(dirs[i])
    {
      var i :| i in running;
      results[i] := kv(dirs[i]);
      running := running - {i};
    }
  }

  /** Takes the entries of one folder until the limit. */
  method AddKeys(dir: string, keys: seq<string>, limit: nat, f: Found, next: seq<string>)
    returns (f': Found, next': seq<string>, capped: bool)
    requires f.seen <= limit
    ensures var n := f'.seen - f.seen;
      && 0 <= n <= |keys| && f'.seen <= limit && (capped <==> n < |keys|) && (capped ==> f'.seen == limit)
      && f' == f.(secrets := f.secrets + SecretsIn(dir, keys[..n]), seen := f.seen + n)
      && next' == next + FoldersIn(dir, keys[..n])
  {
    f', next', capped := f, next, false;
    for i := 0 to |keys|
      invariant f' == f.(secrets := f.secrets + SecretsIn(dir, keys[..i]), seen := f.seen + i)
      invariant next' == next + FoldersIn(dir, keys[..i]) && f'.seen <= limit
    {
      if f'.seen == limit { return f', next', true; }
      var k := keys[i];
      assert keys[..i + 1][..i] == keys[..i];
      if IsFolder(k) {
        f', next' := f'.(seen := f'.seen + 1), next' + [Full(dir, k)];
      } else {
        f' := f'.(seen := f'.seen + 1, secrets := f'.secrets + [Full(dir, k)]);
      }
    }
    assert keys[..|keys|] == keys;
  }

  datatype LevelEnd = Complete | Capped | Missing | Aborted

  lemma {:induction false} PrefixSumsLess(weight: string -> nat, dirs: seq<string>, i: nat)
    requires i <= |dirs|
    ensures Sum(weight, dirs[..i]) <= Sum(weight, dirs)
    decreases |dirs|
  {
    if i < |dirs| {
      assert dirs[..i] == dirs[..|dirs| - 1][..i];
      PrefixSumsLess(weight, dirs[..|dirs| - 1], i);
    } else {
      assert dirs[..i] == dirs;
    }
  }

  lemma {:induction false} SomeSecrets(dir: string, keys: seq<string>, n: nat)
    requires n <= |keys|
    ensures multiset(SecretsIn(dir, keys[..n])) <= multiset(SecretsIn(dir, keys))
  {
    if n < |keys| {
      assert keys[..n] == keys[..|keys| - 1][..n];
      SomeSecrets(dir, keys[..|keys| - 1], n);
    } else {
      assert keys[..n] == keys;
    }
  }

  /** so, after n entries of what this folder answered. */
  predicate Took(so: Found, dir: string, answer: Answer, n: nat, f': Found) {
    match answer
    case Keys(keys) => n <= |keys| && f' == Found(so.secrets + SecretsIn(dir, keys[..n]), so.denied, so.folders + 1, so.seen + n)
    case Refused => f' == so.(denied := so.denied + [dir])
    case _ => f' == so
  }

  lemma TookCounts(kv: Tree, so: Found, dir: string, n: nat, f': Found, what: Item)
    requires Took(so, dir, kv(dir), n, f')
    ensures Count(so, what) <= Count(f', what) <= Count(so, what) + Visit(kv, dir, what)
    ensures (kv(dir).Keys? ==> n == |kv(dir).keys|) ==> Count(f', what) == Count(so, what) + Visit(kv, dir, what)
  {
    if kv(dir).Keys? {
      SomeSecrets(dir, kv(dir).keys, n);
      assert kv(dir).keys[..|kv(dir).keys|] == kv(dir).keys;
    }
  }

  /** What one more folder adds. */
  lemma OneMoreFolder(kv: Tree, f: Found, dirs: seq<string>, i: nat, so: Found, f': Found, n: nat)
    requires i < |dirs| && Gathered(kv, f, dirs[..i], so) && Took(so, dirs[i], kv(dirs[i]), n, f')
    ensures (kv(dirs[i]).Keys? ==> n == |kv(dirs[i]).keys|) ==> Gathered(kv, f, dirs[..i + 1], f')
    ensures GatheredSome(kv, f, dirs[..i + 1], f')
  {
    assert dirs[..i + 1][..i] == dirs[..i];
    forall what
      ensures Count(so, what) <= Count(f', what) <= Count(so, what) + Visit(kv, dirs[i], what)
      ensures (kv(dirs[i]).Keys? ==> n == |kv(dirs[i]).keys|) ==> Count(f', what) == Count(so, what) + Visit(kv, dirs[i], what)
    {
      TookCounts(kv, so, dirs[i], n, f', what);
    }
  }

  ghost predicate Answers(kv: Tree, dirs: seq<string>, top: bool) {
    forall d | d in dirs :: !kv(d).Broken? && (top ==> !kv(d).NotFound?)
  }

  /** Works one folder's answer in. */
  method TakeAnswer(dir: string, answer: Answer, top: bool, limit: nat, f: Found, next: seq<string>)
    returns (f': Found, next': seq<string>, end: LevelEnd, ghost n: nat)
    requires f.seen <= limit
    ensures f.seen <= f'.seen <= limit && Took(f, dir, answer, n, f')
    ensures end.Complete? ==> next' == next + (if answer.Keys? then FoldersIn(dir, answer.keys) else [])
    ensures |next'| - |next| <= f'.seen - f.seen
    ensures end.Complete? <==> !answer.Broken? && !(top && answer.NotFound?) && (answer.Keys? ==> n == |answer.keys|)
    ensures end.Capped? ==> f'.seen == limit && answer.Keys? && n < |answer.keys|
    ensures end.Missing? ==> top && answer.NotFound?
    ensures end.Aborted? ==> answer.Broken?
  {
    f', next', end, n := f, next, Complete, 0;
    match answer
    case Keys(keys) =>
      var capped;
      f', next', capped := AddKeys(dir, keys, limit, f.(folders := f.folders + 1), next);
      n := f'.seen - f.seen;
      if capped { end := Capped; }
      assert keys[..|keys|] == keys;
    case Refused => f' := f.(denied := f.denied + [dir]);
    case NotFound => if top { end := Missing; }
    case Broken => end := Aborted;
  }

  /** Works through the answers of one level, in the order of the frontier. */
  method WalkLevel(kv: Tree, frontier: seq<string>, top: bool, limit: nat, f: Found)
    returns (f': Found, next: seq<string>, end: LevelEnd)
    requires f.seen <= limit
    ensures f.seen <= f'.seen <= limit && |next| <= f'.seen - f.seen
    ensures end.Complete? ==>
      Gathered(kv, f, frontier, f') && next == Below(ChildrenOf(kv), frontier) && Answers(kv, frontier, top)
    ensures end.Capped? ==> f'.seen == limit < f.seen + Sum(Meets(kv, Entry), frontier) && GatheredSome(kv, f, frontier, f')
    ensures end.Capped? && top && |frontier| == 1 ==> !kv(frontier[0]).NotFound?
    ensures end.Missing? ==> top && exists d :: d in frontier && kv(d).NotFound?
    ensures end.Aborted? ==> exists d :: d in frontier && kv(d).Broken?
  {
    var results := ListLevel(kv, frontier);
    f', next, end := f, [], Complete;
    for i := 0 to |frontier|
      invariant f.seen <= f'.seen <= limit && |next| <= f'.seen - f.seen && results.Length == |frontier|
      invariant forall j | 0 <= j < |frontier| :: results[j] == kv(frontier[j])
      invariant Gathered(kv, f, frontier[..i], f') && next == Below(ChildrenOf(kv), frontier[..i])
      invariant Answers(kv, frontier[..i], top) && end.Complete?
    {
      var dir := frontier[i];
      assert frontier[..i + 1] == frontier[..i] + [dir] && frontier[..i + 1][..i] == frontier[..i];
      ghost var so := f';
      ghost var n;
      f', next, end, n := TakeAnswer(dir, results[i], top, limit, f', next);
      OneMoreFolder(kv, f, frontier, i, so, f', n);
      if !end.Complete? {
        if end.Capped? { StopsShort(kv, f, frontier, i, so, f', n); }
        return;
      }
    }
    assert frontier[..|frontier|] == frontier;
  }

  /** A limit reached inside a folder is reached with entries of this level still unseen. */
  lemma StopsShort(kv: Tree, f: Found, dirs: seq<string>, i: nat, so: Found, f': Found, n: nat)
    requires i < |dirs| && Gathered(kv, f, dirs[..i], so) && GatheredSome(kv, f, dirs[..i + 1], f')
    requires kv(dirs[i]).Keys? && n < |kv(dirs[i]).keys| && f'.seen == so.seen + n
    ensures f'.seen < f.seen + Sum(Meets(kv, Entry), dirs) && GatheredSome(kv, f, dirs, f')
  {
    assert dirs[..i + 1][..i] == dirs[..i];
    assert Count(so, Entry) == f.seen + Sum(Meets(kv, Entry), dirs[..i]);
    forall what ensures Sum(Meets(kv, what), dirs[..i + 1]) <= Sum(Meets(kv, what), dirs) {
      PrefixSumsLess(Meets(kv, what), dirs, i + 1);
    }
  }

  datatype Outcome = Walked(secrets: seq<string>, denied: seq<string>, folders: nat, capped: bool) | NoRoot | Failed

  function Level(kv: Tree, root: string, depth: nat): seq<string> {
    Frontier(ChildrenOf(kv), [root], depth)
  }

  /** How many times the item is met in the first levels of the tree. */
  function Total(kv: Tree, root: string, depth: nat, what: Item): nat {
    Traverse(ChildrenOf(kv), Meets(kv, what), [root], depth)
  }

  ghost predicate BrokenAt(kv: Tree, root: string, depth: nat) {
    exists d :: d in Level(kv, root, depth) && kv(d).Broken?
  }

  function Reported(w: Outcome, what: Item): nat
    requires w.Walked?
  {
    match what
    case Secret(path) => multiset(w.secrets)[path]
    case Denied(dir) => multiset(w.denied)[dir]
    case Folder => w.folders
    case Entry => 0
  }

  /** The answer holds everything the recursive traversal of the whole tree meets, once per meeting. */
  ghost predicate Whole(kv: Tree, root: string, depth: nat, w: Outcome)
    requires w.Walked?
  {
    && Level(kv, root, depth) == []
    && (forall what | what != Entry :: Reported(w, what) == Total(kv, root, depth, what))
    && forall d :: !BrokenAt(kv, root, d)
  }

  /** The answer holds nothing that is not in the tree. */
  ghost predicate Part(kv: Tree, root: string, depth: nat, w: Outcome)
    requires w.Walked?
  {
    forall what | what != Entry :: Reported(w, what) <= Total(kv, root, depth, what)
  }

  ghost predicate Tallied(kv: Tree, root: string, depth: nat, f: Found) {
    forall what :: Count(f, what) == Total(kv, root, depth, what)
  }

  lemma NextTotal(kv: Tree, root: string, depth: nat, what: Item)
    ensures Total(kv, root, depth + 1, what) == Total(kv, root, depth, what) + Sum(Meets(kv, what), Level(kv, root, depth))
  {
    LevelsAreTraversal(ChildrenOf(kv), Meets(kv, what), [root], depth);
    LevelsAreTraversal(ChildrenOf(kv), Meets(kv, what), [root], depth + 1);
  }

  lemma LevelTallied(kv: Tree, root: string, depth: nat, f: Found, f': Found)
    requires Tallied(kv, root, depth, f)
    ensures Gathered(kv, f, Level(kv, root, depth), f') ==> Tallied(kv, root, depth + 1, f')
    ensures GatheredSome(kv, f, Level(kv, root, depth), f') ==>
      forall what :: Count(f', what) <= Total(kv, root, depth + 1, what)
  {
    forall what
      ensures Total(kv, root, depth + 1, what) == Total(kv, root, depth, what) + Sum(Meets(kv, what), Level(kv, root, depth))
    {
      NextTotal(kv, root, depth, what);
    }
  }

  /** More entries than the limit at some depth are more than the limit in the whole tree. */
  lemma TotalGrows(kv: Tree, root: string, depth: nat, end: nat)
    requires Level(kv, root, end) == []
    ensures Total(kv, root, depth, Entry) <= Total(kv, root, end, Entry)
  {
    TraversalGrows(ChildrenOf(kv), Meets(kv, Entry), [root], depth, end);
  }

  lemma NoneBroken(kv: Tree, root: string, depth: nat)
    requires Level(kv, root, depth) == [] && forall d | 0 <= d < depth :: !BrokenAt(kv, root, d)
    ensures forall d :: !BrokenAt(kv, root, d)
  {
    forall d: nat | d >= depth ensures !BrokenAt(kv, root, d) {
      NothingPastTheEnd(ChildrenOf(kv), Meets(kv, Entry), [root], depth, d - depth);
    }
  }

  /** What one level leaves, in terms of the whole tree. */
  lemma LevelDone(kv: Tree, root: string, depth: nat, limit: nat, f: Found, f': Found, next: seq<string>, end: LevelEnd)
    requires Tallied(kv, root, depth, f)
    requires var level := Level(kv, root, depth);
      && (end.Complete? ==> Gathered(kv, f, level, f') && next == Below(ChildrenOf(kv), level) && Answers(kv, level, depth == 0))
      && (end.Capped? ==> f'.seen == limit < f.seen + Sum(Meets(kv, Entry), level) && GatheredSome(kv, f, level, f'))
      && (end.Aborted? ==> exists d :: d in level && kv(d).Broken?)
    ensures end.Complete? ==> next == Level(kv, root, depth + 1) && Tallied(kv, root, depth + 1, f') && !BrokenAt(kv, root, depth)
    ensures end.Complete? && depth == 0 ==> !kv(root).NotFound?
    ensures end.Capped? ==>
      Total(kv, root, depth + 1, Entry) > limit && forall what :: Count(f', what) <= Total(kv, root, depth + 1, what)
    ensures end.Aborted? ==> BrokenAt(kv, root, depth)
  {
    LevelTallied(kv, root, depth, f, f');
    NextTotal(kv, root, depth, Entry);
    assert Count(f, Entry) == f.seen;
    if depth == 0 { assert Level(kv, root, 0)[0] == root; }
  }

  /** Level after level, until one is empty or the limit is reached. It ends whatever the tree: each
      further level takes at least one of the entries left. */
  method WalkLevels(kv: Tree, root: string, limit: nat) returns (f: Found, depth: nat, end: LevelEnd)
    ensures end.Missing? <==> kv(root).NotFound?
    ensures end.Aborted? ==> exists d: nat :: BrokenAt(kv, root, d)
    ensures end.Complete? ==> Level(kv, root, depth) == [] && Tallied(kv, root, depth, f) && f.seen <= limit
    ensures end.Complete? ==> forall d | 0 <= d < depth :: !BrokenAt(kv, root, d)
    ensures end.Capped? ==> Total(kv, root, depth, Entry) > limit && forall what :: Count(f, what) <= Total(kv, root, depth, what)
  {
    var frontier := [root];
    f, depth, end := Found([], [], 0, 0), 0, Complete;
    while frontier != []
      invariant f.seen <= limit && end.Complete?
      invariant frontier == Level(kv, root, depth) && Tallied(kv, root, depth, f)
      invariant forall d | 0 <= d < depth :: !BrokenAt(kv, root, d)
      invariant depth > 0 ==> !kv(root).NotFound?
      decreases limit - f.seen, |frontier|
    {
      ghost var before := f;
      var next;
      assert depth == 0 ==> frontier == [root];
      f, next, end := WalkLevel(kv, frontier, depth == 0, limit, f);
      LevelDone(kv, root, depth, limit, before, f, next, end);
      frontier, depth := next, depth + 1;
      if !end.Complete? { return; }
    }
  }

  /** An uncapped answer is the whole tree, within the limit; a capped one is part of a tree that holds
      more entries than the limit. */
  method WalkKV(kv: Tree, root: string, limit: nat) returns (w: Outcome, depth: nat)
    ensures w.NoRoot? <==> kv(root).NotFound?
    ensures w.Failed? ==> exists d: nat :: BrokenAt(kv, root, d)
    ensures w.Walked? ==> Sorted(w.secrets) && Sorted(w.denied) && Part(kv, root, depth, w)
    ensures w.Walked? && !w.capped ==> Whole(kv, root, depth, w)
    ensures w.Walked? ==> (w.capped <==> Total(kv, root, depth, Entry) > limit)
    ensures w.Walked? ==> forall last: nat | Level(kv, root, last) == [] :: w.capped <==> Total(kv, root, last, Entry) > limit
  {
    var f, end;
    f, depth, end := WalkLevels(kv, root, limit);
    if end.Missing? { return NoRoot, depth; }
    if end.Aborted? { return Failed, depth; }
    var secrets := Sort(f.secrets);
    var denied := Sort(f.denied);
    w := Walked(secrets, denied, f.folders, end.Capped?);
    if !w.capped {
      NoneBroken(kv, root, depth);
      assert Count(f, Entry) == f.seen;
    }
    forall what | what != Entry ensures Reported(w, what) == Count(f, what) {}
    forall last: nat | Level(kv, root, last) == [] ensures w.capped <==> Total(kv, root, last, Entry) > limit {
      TotalGrows(kv, root, depth, last);
      if !w.capped { TotalGrows(kv, root, last, depth); }
    }
  }
}
