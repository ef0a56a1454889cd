/** The bounded-concurrency walk that fills node-tar's caches
    (`singleLinkTarCaches`): `pump`, `visit`, `settle` and `fail`, re-entered by
    filesystem callbacks that arrive in any order. */
module TarWalk {
  import opened Strings

  /** An absolute path, segment by segment. */
  type Path = seq<string>

  datatype Stats = Stats(isDirectory: bool, nlink: nat)

  /** A finite directory tree that does not change during the walk. */
  datatype Disk =
    | Leaf(nlink: nat)
    | Folder(nlink: nat, children: seq<DirEntry>)

  datatype DirEntry = DirEntry(name: string, disk: Disk)

  datatype WalkItem = WalkItem(entryPath: string, absolute: Path)

  /** A filesystem call whose callback has not run yet. */
  datatype Call = Lstat(item: WalkItem) | Readdir(item: WalkItem)

  datatype Outcome = Unsettled | Resolved | Rejected

  const WALK_CONCURRENCY: nat := 16

  function Names(children: seq<DirEntry>): (names: seq<string>)
    ensures |names| == |children|
    ensures forall i | 0 <= i < |names| :: names[i] == children[i].name
  {
    if children == [] then [] else [children[0].name] + Names(children[1..])
  }

  function ChildNamed(children: seq<DirEntry>, name: string): Option<Disk> {
    if children == [] then None
    else if children[0].name == name then Some(children[0].disk)
    else ChildNamed(children[1..], name)
  }

  function Lookup(disk: Disk, path: Path): Option<Disk>
    decreases |path|
  {
    if path == [] then Some(disk)
    else
      match Lookup(disk, path[..|path| - 1])
      case Some(Folder(_, children)) => ChildNamed(children, path[|path| - 1])
      case _ => None
  }

  /** No directory lists a name twice. */
  predicate DistinctNames(disk: Disk) {
    match disk
    case Leaf(_) => true
    case Folder(_, children) =>
      && (forall i, j | 0 <= i < j < |children| :: children[i].name != children[j].name)
      && (forall i | 0 <= i < |children| :: DistinctNames(children[i].disk))
  }

  predicate PlainName(name: string) {
    name != "" && '/' !in name
  }

  /** Every name a directory lists is one. */
  predicate PlainNames(disk: Disk) {
    match disk
    case Leaf(_) => true
    case Folder(_, children) =>
      forall i | 0 <= i < |children| :: PlainName(children[i].name) && PlainNames(children[i].disk)
  }

  /** The parent with exactly one trailing slash (nothing for `./`), then the name. */
  function ChildEntryPath(parent: string, name: string): string {
    (if parent == "./" then "" else WithoutTrailingSlashes(parent) + "/") + name
  }

  function WithoutTrailingSlashes(s: string): string {
    if s != "" && s[|s| - 1] == '/' then WithoutTrailingSlashes(s[..|s| - 1]) else s
  }

  function Child(item: WalkItem, name: string): WalkItem {
    WalkItem(ChildEntryPath(item.entryPath, name), item.absolute + [name])
  }

  function Children(item: WalkItem, names: seq<string>): (items: seq<WalkItem>)
    ensures |items| == |names|
    ensures forall i | 0 <= i < |items| :: items[i] == Child(item, names[i])
  {
    if names == [] then [] else Children(item, names[..|names| - 1]) + [Child(item, names[|names| - 1])]
  }

  // ----- Work left: filesystem calls yet to be answered, counted through the tree.

  function Weight(disk: Disk): nat {
    match disk
    case Leaf(_) => 2
    case Folder(_, children) => 2 + WeightAll(children)
  }

  function WeightAll(children: seq<DirEntry>): nat {
    if children == [] then 0
    else
      WeightAll(children[1..])
      + match children[0].disk
        case Leaf(_) => 2
        case Folder(_, grandchildren) => 2 + WeightAll(grandchildren)
  }

  function ItemWork(disk: Disk, item: WalkItem): nat {
    match Lookup(disk, item.absolute)
    case Some(d) => Weight(d)
    case None => 2
  }

  function CallWork(disk: Disk, call: Call): nat {
    match call
    case Lstat(item) => ItemWork(disk, item)
    case Readdir(item) => ItemWork(disk, item) - 1
  }

  function ItemsWork(disk: Disk, items: seq<WalkItem>): nat {
    if items == [] then 0 else ItemsWork(disk, items[..|items| - 1]) + ItemWork(disk, items[|items| - 1])
  }

  function CallsWork(disk: Disk, calls: seq<Call>): nat {
    if calls == [] then 0 else CallsWork(disk, calls[..|calls| - 1]) + CallWork(disk, calls[|calls| - 1])
  }

  lemma {:induction false} ItemsWorkConcat(disk: Disk, a: seq<WalkItem>, b: seq<WalkItem>)
    ensures ItemsWork(disk, a + b) == ItemsWork(disk, a) + ItemsWork(disk, b)
  {
    if b == [] {
      assert a + b == a;
    } else {
      ItemsWorkConcat(disk, a, b[..|b| - 1]);
      assert (a + b)[..|a + b| - 1] == a + b[..|b| - 1];
    }
  }

  lemma {:induction false} CallsWorkWithout(disk: Disk, calls: seq<Call>, i: nat)
    requires i < |calls|
    ensures CallsWork(disk, calls) == CallsWork(disk, calls[..i] + calls[i + 1..]) + CallWork(disk, calls[i])
  {
    var n := |calls| - 1;
    var rest := calls[..i] + calls[i + 1..];
    if i == n {
      assert rest == calls[..n];
    } else {
      CallsWorkWithout(disk, calls[..n], i);
      assert calls[..n][..i] + calls[..n][i + 1..] == rest[..|rest| - 1];
      assert rest[|rest| - 1] == calls[n];
    }
  }

  lemma {:induction false} ChildNamedAt(children: seq<DirEntry>, i: nat)
    requires i < |children|
    requires forall a, b | 0 <= a < b < |children| :: children[a].name != children[b].name
    ensures ChildNamed(children, children[i].name) == Some(children[i].disk)
  {
    if i > 0 {
      assert children[0].name != children[i].name;
      ChildNamedAt(children[1..], i - 1);
    }
  }

  lemma {:induction false} LookupDistinct(disk: Disk, path: Path)
    requires DistinctNames(disk)
    ensures Lookup(disk, path).Some? ==> DistinctNames(Lookup(disk, path).value)
    decreases |path|
  {
    if path != [] {
      LookupDistinct(disk, path[..|path| - 1]);
      var up := Lookup(disk, path[..|path| - 1]);
      if up.Some? && up.value.Folder? {
        ChildNamedIsOne(up.value.children, path[|path| - 1]);
      }
    }
  }

  lemma {:induction false} ChildNamedIsOne(children: seq<DirEntry>, name: string)
    ensures ChildNamed(children, name).Some? ==>
              exists i | 0 <= i < |children| :: children[i] == DirEntry(name, ChildNamed(children, name).value)
  {
    if children != [] && children[0].name != name {
      ChildNamedIsOne(children[1..], name);
      if ChildNamed(children[1..], name).Some? {
        var i :| 0 <= i < |children[1..]| && children[1..][i] == DirEntry(name, ChildNamed(children, name).value);
        assert children[i + 1] == children[1..][i];
      }
    }
  }

  /** The first `n` children weigh what pushing them adds. */
  lemma {:induction false} ChildrenWork(disk: Disk, item: WalkItem, children: seq<DirEntry>, n: nat)
    requires Lookup(disk, item.absolute).Some? && Lookup(disk, item.absolute).value.Folder?
    requires Lookup(disk, item.absolute).value.children == children
    requires forall a, b | 0 <= a < b < |children| :: children[a].name != children[b].name
    requires n <= |children|
    ensures ItemsWork(disk, Children(item, Names(children)[..n])) == WeightAll(children[..n])
  {
    if n > 0 {
      ChildrenWork(disk, item, children, n - 1);
      ChildWork(disk, item, children, n - 1);
      var names := Names(children);
      PrefixSnoc(names, n);
      PrefixSnoc(children, n);
      ChildrenSnoc(disk, item, names[..n - 1], names[n - 1]);
      WeightAllSnoc(children[..n - 1], children[n - 1]);
    }
  }

  lemma PrefixSnoc<T>(s: seq<T>, n: nat)
    requires 0 < n <= |s|
    ensures s[..n] == s[..n - 1] + [s[n - 1]]
  {
  }

  lemma ChildrenSnoc(disk: Disk, item: WalkItem, names: seq<string>, name: string)
    ensures ItemsWork(disk, Children(item, names + [name]))
         == ItemsWork(disk, Children(item, names)) + ItemWork(disk, Child(item, name))
  {
    var all := names + [name];
    assert all[..|all| - 1] == names;
    var items := Children(item, names);
    assert (items + [Child(item, name)])[..|items|] == items;
  }

  lemma ChildWork(disk: Disk, item: WalkItem, children: seq<DirEntry>, i: nat)
    requires Lookup(disk, item.absolute).Some? && Lookup(disk, item.absolute).value.Folder?
    requires Lookup(disk, item.absolute).value.children == children
    requires forall a, b | 0 <= a < b < |children| :: children[a].name != children[b].name
    requires i < |children|
    ensures ItemWork(disk, Child(item, children[i].name)) == Weight(children[i].disk)
  {
    var path := item.absolute + [children[i].name];
    assert path[..|path| - 1] == item.absolute;
    ChildNamedAt(children, i);
  }

  lemma {:induction false} WeightAllSnoc(children: seq<DirEntry>, last: DirEntry)
    ensures WeightAll(children + [last]) == WeightAll(children) + Weight(last.disk)
  {
    var all := children + [last];
    if children == [] {
      assert all[1..] == [];
    } else {
      WeightAllSnoc(children[1..], last);
      assert all[1..] == children[1..] + [last];
    }
  }

  // ----- What the walk should visit.

  datatype Setup = Setup(disk: Disk, roots: seq<WalkItem>, filter: (string, Stats) -> bool)

  function StatsOf(disk: Disk): Stats {
    Stats(disk.Folder?, 1)
  }

  predicate IsFolder(setup: Setup, path: Path) {
    Lookup(setup.disk, path).Some? && Lookup(setup.disk, path).value.Folder?
  }

  function Listing(setup: Setup, path: Path): seq<string>
    requires IsFolder(setup, path)
  {
    Names(Lookup(setup.disk, path).value.children)
  }

  /** The filter's verdict on a directory, under this spelling. */
  predicate Enters(setup: Setup, item: WalkItem) {
    IsFolder(setup, item.absolute) && setup.filter(item.entryPath, Stats(true, 1))
  }

  function Descend(item: WalkItem, names: seq<string>): WalkItem {
    if names == [] then item else Child(Descend(item, names[..|names| - 1]), names[|names| - 1])
  }

  /** Every directory on the way down is entered, and lists the next name. */
  ghost predicate Leads(setup: Setup, root: WalkItem, names: seq<string>) {
    names == [] ||
    var parent := Descend(root, names[..|names| - 1]);
    Leads(setup, root, names[..|names| - 1]) && Enters(setup, parent)
      && names[|names| - 1] in Listing(setup, parent.absolute)
  }

  /** An entry, under one of its spellings, that no rejected directory hides. */
  ghost predicate Reachable(setup: Setup, item: WalkItem) {
    exists r, names :: 0 <= r < |setup.roots| && Leads(setup, setup.roots[r], names) && item == Descend(setup.roots[r], names)
  }

  ghost predicate ReachablePath(setup: Setup, path: Path) {
    exists item :: Reachable(setup, item) && item.absolute == path
  }

  /** The filter judges all spellings of a reachable entry alike. */
  ghost predicate JudgesAlike(setup: Setup) {
    forall x, y | Reachable(setup, x) && Reachable(setup, y) && x.absolute == y.absolute ::
      Enters(setup, x) == Enters(setup, y)
  }

  ghost predicate EnteredPath(setup: Setup, path: Path) {
    exists item :: Reachable(setup, item) && item.absolute == path && Enters(setup, item)
  }

  lemma RootReachable(setup: Setup, r: nat)
    requires r < |setup.roots|
    ensures Reachable(setup, setup.roots[r])
  {
    assert Leads(setup, setup.roots[r], []) && Descend(setup.roots[r], []) == setup.roots[r];
  }

  lemma ChildReachable(setup: Setup, item: WalkItem, name: string)
    requires Reachable(setup, item) && Enters(setup, item) && name in Listing(setup, item.absolute)
    ensures Reachable(setup, Child(item, name))
  {
    var r, names :| 0 <= r < |setup.roots| && Leads(setup, setup.roots[r], names) && item == Descend(setup.roots[r], names);
    var longer := names + [name];
    assert longer[..|longer| - 1] == names;
    assert Leads(setup, setup.roots[r], longer) && Descend(setup.roots[r], longer) == Child(item, name);
  }

  /** A listing names what is there. */
  lemma {:induction false} NamedIsThere(children: seq<DirEntry>, name: string)
    requires name in Names(children)
    ensures ChildNamed(children, name).Some?
  {
    var i :| 0 <= i < |children| && Names(children)[i] == name;
    if children[0].name != name {
      assert children[1..][i - 1] == children[i] && Names(children[1..])[i - 1] == name;
      NamedIsThere(children[1..], name);
    }
  }

  /** If the roots are there, so is everything the walk can reach. */
  lemma ReachableExists(setup: Setup, item: WalkItem)
    requires forall r | 0 <= r < |setup.roots| :: Lookup(setup.disk, setup.roots[r].absolute).Some?
    requires Reachable(setup, item)
    ensures Lookup(setup.disk, item.absolute).Some?
  {
    var r, names :| 0 <= r < |setup.roots| && Leads(setup, setup.roots[r], names) && item == Descend(setup.roots[r], names);
    if names != [] {
      var parent, name := Descend(setup.roots[r], names[..|names| - 1]), names[|names| - 1];
      NamedIsThere(Lookup(setup.disk, parent.absolute).value.children, name);
      assert item.absolute[..|item.absolute| - 1] == parent.absolute;
    }
  }

  // ----- The same in plain terms: under which path the filter is shown an entry,
  // and what has to be on disk, and let in, on the way to it.

  predicate AllSlashes(s: string) {
    forall c | c in s :: c == '/'
  }

  lemma {:induction false} TrailingSlashesGo(base: string, slashes: string)
    requires AllSlashes(slashes) && (base == "" || base[|base| - 1] != '/')
    ensures WithoutTrailingSlashes(base + slashes) == base
  {
    if slashes == "" {
      assert base + slashes == base;
    } else {
      var n := |slashes| - 1;
      assert slashes[n] in slashes && (base + slashes)[|base| + n] == slashes[n];
      assert (base + slashes)[..|base| + n] == base + slashes[..n];
      assert forall c | c in slashes[..n] :: c in slashes;
      TrailingSlashesGo(base, slashes[..n]);
    }
  }

  /** What a directory's path puts in front of what it holds. */
  ghost predicate Fronts(entryPath: string, front: string) {
    if entryPath == "./" then front == ""
    else exists base, slashes ::
      && entryPath == base + slashes && AllSlashes(slashes) && (base == "" || base[|base| - 1] != '/')
      && front == base + "/"
  }

  lemma ChildInFront(entryPath: string, front: string, name: string)
    requires Fronts(entryPath, front)
    ensures ChildEntryPath(entryPath, name) == front + name
  {
    if entryPath != "./" {
      var base, slashes :| entryPath == base + slashes && AllSlashes(slashes)
        && (base == "" || base[|base| - 1] != '/') && front == base + "/";
      TrailingSlashesGo(base, slashes);
    }
  }

  /** A path that ends in no slash is fronted by itself and one. */
  lemma PlainFront(path: string)
    requires path != "" && path[|path| - 1] != '/'
    ensures Fronts(path, path + "/")
  {
    assert path == path + "" && path != "./" && AllSlashes("");
  }

  lemma {:induction false} JoinSnoc(names: seq<string>, name: string)
    requires names != []
    ensures Join(names + [name], '/') == Join(names, '/') + "/" + name
  {
    var all := names + [name];
    if |names| == 1 {
      assert all[1..] == [name];
    } else {
      JoinSnoc(names[1..], name);
      assert all[1..] == names[1..] + [name];
    }
  }

  lemma {:induction false} JoinEndsPlain(names: seq<string>)
    requires names != [] && forall i | 0 <= i < |names| :: PlainName(names[i])
    ensures var joined := Join(names, '/'); joined != "" && joined[|joined| - 1] != '/'
  {
    var last := names[|names| - 1];
    assert PlainName(last) && last[|last| - 1] in last;
    if |names| > 1 {
      JoinEndsPlain(names[1..]);
    }
  }

  lemma ShownNext(front: string, joined: string, name: string)
    requires joined != "" && joined[|joined| - 1] != '/'
    ensures ChildEntryPath(front + joined, name) == front + (joined + "/" + name)
  {
    var path := front + joined;
    assert path[|path| - 1] == joined[|joined| - 1];
    PlainFront(path);
    ChildInFront(path, path + "/", name);
    assert path + "/" + name == front + (joined + "/" + name);
  }

  /** An entry below a root is shown under the root's path, a slash and the names on
      the way, joined by slashes; below `./` under the names alone. */
  lemma {:induction false} ShownUnderItsPath(root: WalkItem, front: string, names: seq<string>)
    requires Fronts(root.entryPath, front) && names != [] && forall i | 0 <= i < |names| :: PlainName(names[i])
    ensures Descend(root, names).entryPath == front + Join(names, '/')
  {
    var n := |names| - 1;
    if n == 0 {
      ChildInFront(root.entryPath, front, names[0]);
      assert Descend(root, names[..0]) == root;
    } else {
      ShownUnderItsPath(root, front, names[..n]);
      JoinEndsPlain(names[..n]);
      JoinSnoc(names[..n], names[n]);
      ShownNext(front, Join(names[..n], '/'), names[n]);
      assert names == names[..n] + [names[n]];
    }
  }

  lemma {:induction false} DescendAbsolute(root: WalkItem, names: seq<string>)
    ensures Descend(root, names).absolute == root.absolute + names
  {
    if names != [] {
      DescendAbsolute(root, names[..|names| - 1]);
      assert names == names[..|names| - 1] + [names[|names| - 1]];
    }
  }

  lemma FrontExists(entryPath: string)
    ensures exists front :: Fronts(entryPath, front)
  {
    if entryPath != "./" {
      var base, slashes := SlashesApart(entryPath);
      assert Fronts(entryPath, base + "/");
    } else {
      assert Fronts(entryPath, "");
    }
  }

  lemma {:induction false} SlashesApart(s: string) returns (base: string, slashes: string)
    ensures s == base + slashes && AllSlashes(slashes) && (base == "" || base[|base| - 1] != '/')
  {
    if s != "" && s[|s| - 1] == '/' {
      base, slashes := SlashesApart(s[..|s| - 1]);
      slashes := slashes + "/";
      assert s == s[..|s| - 1] + "/";
    } else {
      base, slashes := s, "";
    }
  }

  /** `shown` is the path the filter is shown for what stands at `names` under a root. */
  ghost predicate ShownAs(root: WalkItem, names: seq<string>, shown: string) {
    if names == [] then shown == root.entryPath
    else exists front :: Fronts(root.entryPath, front) && shown == front + Join(names, '/')
  }

  /** A directory stands there, and the filter lets it in. */
  ghost predicate LetIn(setup: Setup, root: WalkItem, names: seq<string>) {
    && IsFolder(setup, root.absolute + names)
    && exists shown :: ShownAs(root, names, shown) && setup.filter(shown, Stats(true, 1))
  }

  /** Every directory on the way is let in and lists the next name. */
  ghost predicate Open(setup: Setup, root: WalkItem, names: seq<string>) {
    forall k | 0 <= k < |names| :: OpensAt(setup, root, names[..k], names[k])
  }

  ghost predicate OpensAt(setup: Setup, root: WalkItem, front: seq<string>, name: string) {
    LetIn(setup, root, front) && name in Listing(setup, root.absolute + front)
  }

  predicate AllPlain(names: seq<string>) {
    forall i | 0 <= i < |names| :: PlainName(names[i])
  }

  lemma DescendIsShown(root: WalkItem, names: seq<string>, shown: string)
    requires AllPlain(names)
    ensures ShownAs(root, names, shown) <==> shown == Descend(root, names).entryPath
  {
    if names != [] {
      if front :| Fronts(root.entryPath, front) && shown == front + Join(names, '/') {
        ShownUnderItsPath(root, front, names);
      }
      FrontExists(root.entryPath);
      var front :| Fronts(root.entryPath, front);
      ShownUnderItsPath(root, front, names);
    }
  }

  lemma EntersIffLetIn(setup: Setup, root: WalkItem, names: seq<string>)
    requires AllPlain(names)
    ensures Enters(setup, Descend(root, names)) <==> LetIn(setup, root, names)
  {
    DescendAbsolute(root, names);
    DescendIsShown(root, names, Descend(root, names).entryPath);
    if shown :| ShownAs(root, names, shown) && setup.filter(shown, Stats(true, 1)) {
      DescendIsShown(root, names, shown);
    }
  }

  lemma {:induction false} LookupPlain(disk: Disk, path: Path)
    requires PlainNames(disk)
    ensures Lookup(disk, path).Some? ==> PlainNames(Lookup(disk, path).value)
    decreases |path|
  {
    if path != [] {
      LookupPlain(disk, path[..|path| - 1]);
      var up := Lookup(disk, path[..|path| - 1]);
      if up.Some? && up.value.Folder? {
        ChildNamedIsOne(up.value.children, path[|path| - 1]);
      }
    }
  }

  lemma ListedArePlain(setup: Setup, path: Path, name: string)
    requires PlainNames(setup.disk) && IsFolder(setup, path) && name in Listing(setup, path)
    ensures PlainName(name)
  {
    LookupPlain(setup.disk, path);
    var children := Lookup(setup.disk, path).value.children;
    var i :| 0 <= i < |children| && Names(children)[i] == name;
  }

  lemma OpenSnoc(setup: Setup, root: WalkItem, front: seq<string>, name: string)
    ensures Open(setup, root, front + [name]) <==> Open(setup, root, front) && OpensAt(setup, root, front, name)
  {
    var all, n := front + [name], |front|;
    assert all[..n] == front && all[n] == name;
    forall k | 0 <= k < n ensures all[..k] == front[..k] && all[k] == front[k] {
    }
    if Open(setup, root, all) {
      assert OpensAt(setup, root, all[..n], all[n]);
      forall k | 0 <= k < n ensures OpensAt(setup, root, front[..k], front[k]) {
        assert OpensAt(setup, root, all[..k], all[k]);
      }
    }
  }

  lemma LeadsSnoc(setup: Setup, root: WalkItem, front: seq<string>, name: string)
    requires AllPlain(front)
    ensures Leads(setup, root, front + [name]) <==>
              Leads(setup, root, front) && LetIn(setup, root, front) && name in Listing(setup, root.absolute + front)
  {
    assert (front + [name])[..|front|] == front;
    EntersIffLetIn(setup, root, front);
    DescendAbsolute(root, front);
  }

  lemma LeadsPlainly(setup: Setup, root: WalkItem, front: seq<string>, name: string)
    requires PlainNames(setup.disk) && AllPlain(front) && Leads(setup, root, front + [name])
    ensures AllPlain(front + [name])
  {
    LeadsSnoc(setup, root, front, name);
    ListedArePlain(setup, root.absolute + front, name);
  }

  lemma LeadsBack(setup: Setup, root: WalkItem, front: seq<string>, name: string)
    requires Leads(setup, root, front + [name])
    ensures Leads(setup, root, front)
  {
    assert (front + [name])[..|front|] == front;
  }

  lemma OneMoreStep(setup: Setup, root: WalkItem, front: seq<string>, name: string)
    requires PlainNames(setup.disk) && (Leads(setup, root, front) ==> AllPlain(front))
    requires Leads(setup, root, front) <==> Open(setup, root, front)
    ensures Leads(setup, root, front + [name]) <==> Open(setup, root, front) && OpensAt(setup, root, front, name)
    ensures Leads(setup, root, front + [name]) ==> AllPlain(front + [name])
  {
    if Leads(setup, root, front + [name]) {
      LeadsBack(setup, root, front, name);
      LeadsPlainly(setup, root, front, name);
    }
    if Leads(setup, root, front) { LeadsSnoc(setup, root, front, name); }
  }

  lemma {:induction false} LeadsIffOpen(setup: Setup, root: WalkItem, names: seq<string>)
    requires PlainNames(setup.disk)
    ensures Leads(setup, root, names) <==> Open(setup, root, names)
    ensures Leads(setup, root, names) ==> AllPlain(names)
  {
    if names != [] {
      var front, name := names[..|names| - 1], names[|names| - 1];
      assert names == front + [name];
      LeadsIffOpen(setup, root, front);
      OneMoreStep(setup, root, front, name);
      OpenSnoc(setup, root, front, name);
    }
  }

  ghost predicate FoundAt(setup: Setup, r: nat, names: seq<string>, path: Path) {
    r < |setup.roots| && Open(setup, setup.roots[r], names) && path == setup.roots[r].absolute + names
  }

  /** It stands somewhere below a root, every directory on the way let in. */
  ghost predicate Found(setup: Setup, path: Path) {
    exists r: nat, names :: FoundAt(setup, r, names, path)
  }

  ghost predicate LetInAt(setup: Setup, r: nat, names: seq<string>, path: Path) {
    FoundAt(setup, r, names, path) && LetIn(setup, setup.roots[r], names)
  }

  /** So it does, and is a directory let in itself. */
  ghost predicate FoundOpen(setup: Setup, path: Path) {
    exists r: nat, names :: LetInAt(setup, r, names, path)
  }

  lemma ReachableIsFound(setup: Setup, item: WalkItem) returns (r: nat, names: seq<string>)
    requires PlainNames(setup.disk) && Reachable(setup, item)
    ensures FoundAt(setup, r, names, item.absolute)
    ensures Enters(setup, item) <==> LetInAt(setup, r, names, item.absolute)
  {
    r, names :| 0 <= r < |setup.roots| && Leads(setup, setup.roots[r], names) && item == Descend(setup.roots[r], names);
    LeadsIffOpen(setup, setup.roots[r], names);
    DescendAbsolute(setup.roots[r], names);
    EntersIffLetIn(setup, setup.roots[r], names);
  }

  lemma FoundIsReachable(setup: Setup, r: nat, names: seq<string>, path: Path) returns (item: WalkItem)
    requires PlainNames(setup.disk) && FoundAt(setup, r, names, path)
    ensures Reachable(setup, item) && item.absolute == path
    ensures Enters(setup, item) <==> LetInAt(setup, r, names, path)
  {
    item := Descend(setup.roots[r], names);
    LeadsIffOpen(setup, setup.roots[r], names);
    DescendAbsolute(setup.roots[r], names);
    EntersIffLetIn(setup, setup.roots[r], names);
  }

  lemma ReachableIffFound(setup: Setup, path: Path)
    requires PlainNames(setup.disk)
    ensures ReachablePath(setup, path) <==> Found(setup, path)
    ensures EnteredPath(setup, path) <==> FoundOpen(setup, path)
  {
    if item :| Reachable(setup, item) && item.absolute == path {
      var r, names := ReachableIsFound(setup, item);
    }
    if item :| Reachable(setup, item) && item.absolute == path && Enters(setup, item) {
      var r, names := ReachableIsFound(setup, item);
    }
    if r: nat, names :| FoundAt(setup, r, names, path) {
      var item := FoundIsReachable(setup, r, names, path);
    }
    if r: nat, names :| LetInAt(setup, r, names, path) {
      var item := FoundIsReachable(setup, r, names, path);
    }
  }

  // ----- What the walk knows and owes, and what each move does to it.

  datatype Progress = Progress(
    pending: seq<WalkItem>, inFlight: seq<Call>,
    statCache: map<Path, Stats>, readdirCache: map<Path, seq<string>>)

  function Work(disk: Disk, p: Progress): nat {
    ItemsWork(disk, p.pending) + CallsWork(disk, p.inFlight)
  }

  /** Everything queued, asked for or cached is reachable, and cached truthfully. */
  ghost predicate Sound(setup: Setup, p: Progress) {
    && (forall i | 0 <= i < |p.pending| :: Reachable(setup, p.pending[i]))
    && (forall i | 0 <= i < |p.inFlight| ::
          Reachable(setup, p.inFlight[i].item) && (p.inFlight[i].Readdir? ==> Enters(setup, p.inFlight[i].item)))
    && (forall a | a in p.statCache ::
          ReachablePath(setup, a) && Lookup(setup.disk, a).Some? && p.statCache[a] == StatsOf(Lookup(setup.disk, a).value))
    && (forall a | a in p.readdirCache ::
          EnteredPath(setup, a) && IsFolder(setup, a) && p.readdirCache[a] == Listing(setup, a))
  }

  /** The path is cached, or something still to come will cache it; `held` is
      the item a running frame has popped, if any. */
  ghost predicate Covered(p: Progress, held: Option<WalkItem>, path: Path) {
    || path in p.statCache
    || (held.Some? && held.value.absolute == path)
    || (exists item :: item in p.pending && item.absolute == path)
    || (exists call :: call in p.inFlight && call.Lstat? && call.item.absolute == path)
  }

  /** A directory's listing is on its way, or cached with every child covered. */
  ghost predicate Expanded(setup: Setup, p: Progress, held: Option<WalkItem>, path: Path)
    requires IsFolder(setup, path)
  {
    || (exists call :: call in p.inFlight && call.Readdir? && call.item.absolute == path)
    || (path in p.readdirCache && forall name | name in Listing(setup, path) :: Covered(p, held, path + [name]))
  }

  /** Nothing reachable has been forgotten. */
  ghost predicate Complete(setup: Setup, p: Progress, held: Option<WalkItem>) {
    && (forall r | 0 <= r < |setup.roots| :: Covered(p, held, setup.roots[r].absolute))
    && (forall a | a in p.statCache && EnteredPath(setup, a) :: IsFolder(setup, a) && Expanded(setup, p, held, a))
  }

  /** Whatever was covered or on its way still is. */
  ghost predicate Keeps(p: Progress, held: Option<WalkItem>, q: Progress, held': Option<WalkItem>) {
    && (forall a | Covered(p, held, a) :: Covered(q, held', a))
    && (forall call | call in p.inFlight && call.Readdir? :: call in q.inFlight)
    && (forall a | a in p.readdirCache :: a in q.readdirCache)
  }

  lemma KeepsExpanded(setup: Setup, p: Progress, held: Option<WalkItem>, q: Progress, held': Option<WalkItem>)
    requires Keeps(p, held, q, held') && Complete(setup, p, held)
    ensures forall r | 0 <= r < |setup.roots| :: Covered(q, held', setup.roots[r].absolute)
    ensures forall a | a in p.statCache && EnteredPath(setup, a) :: IsFolder(setup, a) && Expanded(setup, q, held', a)
  {
    forall a | a in p.statCache && EnteredPath(setup, a) ensures IsFolder(setup, a) && Expanded(setup, q, held', a) {
      assert Expanded(setup, p, held, a);
    }
  }

  lemma InFront<T>(xs: seq<T>)
    requires xs != []
    ensures forall x :: x in xs <==> x in xs[..|xs| - 1] || x == xs[|xs| - 1]
  {
    assert xs == xs[..|xs| - 1] + [xs[|xs| - 1]];
  }

  /** `pending.pop()`. */
  lemma Popped(setup: Setup, p: Progress)
    requires Sound(setup, p) && Complete(setup, p, None) && p.pending != []
    ensures var n := |p.pending| - 1;
            var q := p.(pending := p.pending[..n]);
            && Sound(setup, q) && Reachable(setup, p.pending[n]) && Complete(setup, q, Some(p.pending[n]))
            && Work(setup.disk, p) == Work(setup.disk, q) + ItemWork(setup.disk, p.pending[n])
  {
    var n := |p.pending| - 1;
    var q := p.(pending := p.pending[..n]);
    InFront(p.pending);
    assert Keeps(p, None, q, Some(p.pending[n]));
    KeepsExpanded(setup, p, None, q, Some(p.pending[n]));
  }

  /** `statCache.has(key)`: the popped item needs nothing more. */
  lemma AlreadyCached(setup: Setup, p: Progress, item: WalkItem)
    requires Complete(setup, p, Some(item)) && item.absolute in p.statCache
    ensures Complete(setup, p, None)
  {
    assert Keeps(p, Some(item), p, None);
    KeepsExpanded(setup, p, Some(item), p, None);
  }

  /** `lstat(absolute, ...)` for the popped item. */
  lemma AskedLstat(setup: Setup, p: Progress, item: WalkItem)
    requires Sound(setup, p) && Complete(setup, p, Some(item)) && Reachable(setup, item)
    ensures var q := p.(inFlight := p.inFlight + [Lstat(item)]);
            && Sound(setup, q) && Complete(setup, q, None)
            && Work(setup.disk, q) == Work(setup.disk, p) + ItemWork(setup.disk, item)
  {
    var q := p.(inFlight := p.inFlight + [Lstat(item)]);
    assert q.inFlight[..|p.inFlight|] == p.inFlight;
    assert Lstat(item) in q.inFlight;
    assert Keeps(p, Some(item), q, None);
    KeepsExpanded(setup, p, Some(item), q, None);
  }

  function Without<T>(xs: seq<T>, i: nat): (r: seq<T>)
    requires i < |xs|
    ensures |r| == |xs| - 1
    ensures forall x | x in xs :: x == xs[i] || x in r
    ensures forall x | x in r :: x in xs
  {
    assert xs == xs[..i] + [xs[i]] + xs[i + 1..];
    xs[..i] + xs[i + 1..]
  }

  lemma SoundWithout(setup: Setup, p: Progress, i: nat)
    requires Sound(setup, p) && i < |p.inFlight|
    ensures Sound(setup, p.(inFlight := Without(p.inFlight, i)))
    ensures Work(setup.disk, p)
         == Work(setup.disk, p.(inFlight := Without(p.inFlight, i))) + CallWork(setup.disk, p.inFlight[i])
  {
    CallsWorkWithout(setup.disk, p.inFlight, i);
    var q := Without(p.inFlight, i);
    forall k | 0 <= k < |q|
      ensures Reachable(setup, q[k].item) && (q[k].Readdir? ==> Enters(setup, q[k].item))
    {
      assert q[k] in q;
    }
  }

  /** The state once call `i` is answered with what is at its path, and cached. */
  function Statted(setup: Setup, p: Progress, i: nat): Progress
    requires i < |p.inFlight| && Lookup(setup.disk, p.inFlight[i].item.absolute).Some?
  {
    var path := p.inFlight[i].item.absolute;
    p.(inFlight := Without(p.inFlight, i), statCache := p.statCache[path := StatsOf(Lookup(setup.disk, path).value)])
  }

  lemma StatSound(setup: Setup, p: Progress, i: nat)
    requires Sound(setup, p) && i < |p.inFlight| && p.inFlight[i].Lstat?
    requires Lookup(setup.disk, p.inFlight[i].item.absolute).Some?
    ensures Sound(setup, Statted(setup, p, i))
    ensures Work(setup.disk, Statted(setup, p, i)) == Work(setup.disk, p) - ItemWork(setup.disk, p.inFlight[i].item)
  {
    SoundWithout(setup, p, i);
    assert Reachable(setup, p.inFlight[i].item);
  }

  /** An answered `lstat` forgets nothing: its own path is cached now. */
  lemma StatKeeps(p: Progress, i: nat, q: Progress)
    requires i < |p.inFlight| && p.inFlight[i].Lstat?
    requires forall call | call in Without(p.inFlight, i) :: call in q.inFlight
    requires q.pending == p.pending && q.readdirCache == p.readdirCache
    requires p.inFlight[i].item.absolute in q.statCache && forall a | a in p.statCache :: a in q.statCache
    ensures Keeps(p, None, q, None)
  {
    forall a | Covered(p, None, a) ensures Covered(q, None, a) {
    }
  }

  /** Not a directory, or the filter rejects it: the slot is free. */
  lemma NotEntered(setup: Setup, p: Progress, i: nat)
    requires JudgesAlike(setup) && Sound(setup, p) && Complete(setup, p, None)
    requires i < |p.inFlight| && p.inFlight[i].Lstat?
    requires Lookup(setup.disk, p.inFlight[i].item.absolute).Some? && !Enters(setup, p.inFlight[i].item)
    ensures var q := Statted(setup, p, i);
            Sound(setup, q) && Complete(setup, q, None) && Work(setup.disk, q) < Work(setup.disk, p)
  {
    var item, q := p.inFlight[i].item, Statted(setup, p, i);
    StatSound(setup, p, i);
    StatKeeps(p, i, q);
    KeepsExpanded(setup, p, None, q, None);
    RejectedIsNotEntered(setup, item);
  }

  lemma RejectedIsNotEntered(setup: Setup, item: WalkItem)
    requires JudgesAlike(setup) && Reachable(setup, item) && !Enters(setup, item)
    ensures !EnteredPath(setup, item.absolute)
  {
  }

  /** A directory to enter: `readdir` follows on the same slot. */
  lemma AskedReaddir(setup: Setup, p: Progress, i: nat)
    requires Sound(setup, p) && Complete(setup, p, None)
    requires i < |p.inFlight| && p.inFlight[i].Lstat? && Enters(setup, p.inFlight[i].item)
    ensures var m := Statted(setup, p, i);
            var q := m.(inFlight := m.inFlight + [Readdir(p.inFlight[i].item)]);
            Sound(setup, q) && Complete(setup, q, None) && Work(setup.disk, q) < Work(setup.disk, p)
  {
    var item, m := p.inFlight[i].item, Statted(setup, p, i);
    var q := m.(inFlight := m.inFlight + [Readdir(item)]);
    StatSound(setup, p, i);
    assert Reachable(setup, item);
    ReaddirSound(setup, m, item);
    assert Readdir(item) in q.inFlight;
    StatKeeps(p, i, q);
    KeepsExpanded(setup, p, None, q, None);
  }

  lemma ReaddirSound(setup: Setup, p: Progress, item: WalkItem)
    requires Sound(setup, p) && Reachable(setup, item) && Enters(setup, item)
    ensures var q := p.(inFlight := p.inFlight + [Readdir(item)]);
            Sound(setup, q) && Work(setup.disk, q) == Work(setup.disk, p) + ItemWork(setup.disk, item) - 1
  {
    assert (p.inFlight + [Readdir(item)])[..|p.inFlight|] == p.inFlight;
  }

  /** The state once call `i` is answered with a listing: cached, and every child queued. */
  function WithListing(p: Progress, i: nat, names: seq<string>): Progress
    requires i < |p.inFlight|
  {
    var item := p.inFlight[i].item;
    Progress(p.pending + Children(item, names), Without(p.inFlight, i), p.statCache, p.readdirCache[item.absolute := names])
  }

  lemma Listed(setup: Setup, p: Progress, i: nat)
    requires DistinctNames(setup.disk) && Sound(setup, p) && Complete(setup, p, None)
    requires i < |p.inFlight| && p.inFlight[i].Readdir?
    requires IsFolder(setup, p.inFlight[i].item.absolute)
    ensures var q := WithListing(p, i, Listing(setup, p.inFlight[i].item.absolute));
            Sound(setup, q) && Complete(setup, q, None) && Work(setup.disk, q) < Work(setup.disk, p)
  {
    var item := p.inFlight[i].item;
    assert Reachable(setup, item) && Enters(setup, item);
    var names := Listing(setup, item.absolute);
    var m := p.(inFlight := Without(p.inFlight, i), readdirCache := p.readdirCache[item.absolute := names]);
    var q := WithListing(p, i, names);
    SoundWithout(setup, p, i);
    assert EnteredPath(setup, item.absolute);
    assert Sound(setup, m);
    ListedSound(setup, m, item);
    forall name | name in names ensures Covered(q, None, item.absolute + [name]) {
      var k :| 0 <= k < |names| && names[k] == name;
      assert Children(item, names)[k] in q.pending;
    }
    ListedKeeps(setup, p, i, q);
    ListedWork(setup, p.pending, item);
  }

  lemma ListedSound(setup: Setup, p: Progress, item: WalkItem)
    requires Sound(setup, p) && Reachable(setup, item) && Enters(setup, item)
    ensures Sound(setup, p.(pending := p.pending + Children(item, Listing(setup, item.absolute))))
  {
    var names := Listing(setup, item.absolute);
    var kids := Children(item, names);
    forall k | 0 <= k < |kids| ensures Reachable(setup, kids[k]) {
      ChildReachable(setup, item, names[k]);
    }
  }

  /** All that was covered stays covered; the answered call's directory is now cached. */
  lemma ListedKeeps(setup: Setup, p: Progress, i: nat, q: Progress)
    requires Complete(setup, p, None) && i < |p.inFlight| && p.inFlight[i].Readdir?
    requires q.inFlight == Without(p.inFlight, i) && q.statCache == p.statCache && p.pending <= q.pending
    requires forall a | a in p.readdirCache :: a in q.readdirCache
    requires IsFolder(setup, p.inFlight[i].item.absolute) && p.inFlight[i].item.absolute in q.readdirCache
    requires forall name | name in Listing(setup, p.inFlight[i].item.absolute) ::
               Covered(q, None, p.inFlight[i].item.absolute + [name])
    ensures Complete(setup, q, None)
  {
    assert forall item | item in p.pending :: item in q.pending;
    forall a | Covered(p, None, a) ensures Covered(q, None, a) {
    }
    forall a | a in q.statCache && EnteredPath(setup, a) ensures IsFolder(setup, a) && Expanded(setup, q, None, a) {
      assert Expanded(setup, p, None, a);
    }
  }

  lemma ListedWork(setup: Setup, pending: seq<WalkItem>, item: WalkItem)
    requires DistinctNames(setup.disk) && IsFolder(setup, item.absolute)
    ensures ItemsWork(setup.disk, pending + Children(item, Listing(setup, item.absolute)))
         == ItemsWork(setup.disk, pending) + ItemWork(setup.disk, item) - 2
  {
    var children := Lookup(setup.disk, item.absolute).value.children;
    LookupDistinct(setup.disk, item.absolute);
    ChildrenWork(setup.disk, item, children, |children|);
    assert children[..|children|] == children && Names(children)[..|children|] == Names(children);
    ItemsWorkConcat(setup.disk, pending, Children(item, Listing(setup, item.absolute)));
  }

  // ----- What a finished walk has cached.

  /** The stat cache holds exactly what the walk can reach, each link count set
      to one, and the directory cache exactly the directories it entered. */
  ghost predicate Exact(setup: Setup, statCache: map<Path, Stats>, readdirCache: map<Path, seq<string>>) {
    && (forall a :: a in statCache <==> ReachablePath(setup, a))
    && (forall a | a in statCache ::
          Lookup(setup.disk, a).Some? && statCache[a] == Stats(Lookup(setup.disk, a).value.Folder?, 1))
    && (forall a :: a in readdirCache <==> EnteredPath(setup, a))
    && (forall a | a in readdirCache :: IsFolder(setup, a) && readdirCache[a] == Listing(setup, a))
  }

  /** With nothing left to do, what is covered is cached. */
  lemma CoveredIsCached(p: Progress, path: Path)
    requires p.pending == [] && p.inFlight == [] && Covered(p, None, path)
    ensures path in p.statCache
  {
  }

  lemma ChildCached(setup: Setup, p: Progress, parent: WalkItem, name: string)
    requires p.pending == [] && p.inFlight == [] && Complete(setup, p, None)
    requires Reachable(setup, parent) && Enters(setup, parent) && name in Listing(setup, parent.absolute)
    requires parent.absolute in p.statCache
    ensures Child(parent, name).absolute in p.statCache
  {
    assert EnteredPath(setup, parent.absolute);
    assert Expanded(setup, p, None, parent.absolute);
    CoveredIsCached(p, parent.absolute + [name]);
  }

  /** The same without the walk's own items: cached is exactly what stands where every
      directory on the way is let in under the path that leads to it, and listed
      exactly the directories let in themselves. */
  ghost predicate CachedExactly(setup: Setup, statCache: map<Path, Stats>, readdirCache: map<Path, seq<string>>) {
    && (forall a :: a in statCache <==> Found(setup, a))
    && (forall a | a in statCache ::
          Lookup(setup.disk, a).Some? && statCache[a] == Stats(Lookup(setup.disk, a).value.Folder?, 1))
    && (forall a :: a in readdirCache <==> FoundOpen(setup, a))
    && (forall a | a in readdirCache :: IsFolder(setup, a) && readdirCache[a] == Listing(setup, a))
  }

  lemma ExactInPlainTerms(setup: Setup, statCache: map<Path, Stats>, readdirCache: map<Path, seq<string>>)
    requires PlainNames(setup.disk) && Exact(setup, statCache, readdirCache)
    ensures CachedExactly(setup, statCache, readdirCache)
  {
    forall a
      ensures ReachablePath(setup, a) <==> Found(setup, a)
      ensures EnteredPath(setup, a) <==> FoundOpen(setup, a)
    {
      ReachableIffFound(setup, a);
    }
  }

  lemma {:induction false} DescendCached(setup: Setup, p: Progress, r: nat, names: seq<string>)
    requires p.pending == [] && p.inFlight == [] && Complete(setup, p, None)
    requires r < |setup.roots| && Leads(setup, setup.roots[r], names)
    ensures Descend(setup.roots[r], names).absolute in p.statCache
  {
    var root := setup.roots[r];
    if names == [] {
      CoveredIsCached(p, root.absolute);
    } else {
      var front := names[..|names| - 1];
      DescendCached(setup, p, r, front);
      ChildCached(setup, p, Descend(root, front), names[|names| - 1]);
    }
  }

  lemma FinishedIsExact(setup: Setup, p: Progress)
    requires p.pending == [] && p.inFlight == [] && Sound(setup, p) && Complete(setup, p, None)
    ensures Exact(setup, p.statCache, p.readdirCache)
  {
    forall a | ReachablePath(setup, a) ensures a in p.statCache {
      var item :| Reachable(setup, item) && item.absolute == a;
      var r, names :| 0 <= r < |setup.roots| && Leads(setup, setup.roots[r], names)
        && item == Descend(setup.roots[r], names);
      DescendCached(setup, p, r, names);
    }
    forall a | EnteredPath(setup, a) ensures a in p.readdirCache {
      assert ReachablePath(setup, a);
      assert Expanded(setup, p, None, a);
    }
  }

  // ----- The walk.

  class Walk {
    ghost const setup: Setup
    const filter: (string, Stats) -> bool
    var statCache: map<Path, Stats>
    var readdirCache: map<Path, seq<string>>
    var pending: seq<WalkItem>
    var active: int
    var failed: bool
    // The promise, and how often it was resolved or rejected.
    var outcome: Outcome
    ghost var settlements: nat
    // The calls the event loop has yet to answer.
    var inFlight: seq<Call>

    constructor (ghost setup: Setup, filter: (string, Stats) -> bool, roots: seq<WalkItem>)
      requires setup.filter == filter && setup.roots == roots
      requires DistinctNames(setup.disk) && JudgesAlike(setup)
      ensures this.setup == setup && this.filter == filter
      ensures Valid() && Running() && active == 0
    {
      this.setup, this.filter := setup, filter;
      statCache, readdirCache, pending := map[], map[], roots;
      active, failed, outcome, settlements, inFlight := 0, false, Unsettled, 0, [];
      new;
      forall r | 0 <= r < |roots| ensures Reachable(setup, roots[r]) && Covered(State(), None, roots[r].absolute) {
        RootReachable(setup, r);
        assert roots[r] in pending;
      }
    }

    ghost function State(): Progress
      reads this
    {
      Progress(pending, inFlight, statCache, readdirCache)
    }

    ghost predicate Valid()
      reads this
    {
      setup.filter == filter && DistinctNames(setup.disk) && JudgesAlike(setup) && Sound(setup, State())
    }

    /** The promise is open and no callback has failed. */
    ghost predicate Unanswered()
      reads this
    {
      outcome == Unsettled && !failed && settlements == 0
    }

    /** Every call in flight holds a slot; `held` more are held by running frames. */
    ghost predicate Slots(held: nat)
      reads this
    {
      active == |inFlight| + held && active <= WALK_CONCURRENCY
    }

    /** Open, with every slot in flight and nothing forgotten. */
    ghost predicate Running()
      reads this
    {
      Unanswered() && Slots(0) && Complete(setup, State(), None)
    }

    /** Between callbacks: settled for good, or with calls in flight and, unless
        every slot is taken, nothing left waiting for one. */
    ghost predicate Steady()
      reads this
    {
      match outcome
      case Rejected => failed && settlements == 1
      case Resolved =>
        !failed && settlements == 1 && Slots(0) && Complete(setup, State(), None) && pending == [] && inFlight == []
      case Unsettled =>
        Running() && inFlight != [] && (pending == [] || active == WALK_CONCURRENCY)
    }

    method Fail()
      requires Unanswered()
      modifies this`failed, this`outcome, this`settlements
      ensures Steady() && outcome == Rejected && State() == old(State())
    {
      failed := true;
      outcome, settlements := Rejected, settlements + 1;
    }

    method Settle()
      requires Valid() && Unanswered() && Slots(1) && Complete(setup, State(), None)
      modifies this`pending, this`active, this`outcome, this`settlements, this`inFlight
      ensures Valid() && Steady() && !failed
      ensures Work(setup.disk, State()) <= old(Work(setup.disk, State())) && |pending| <= old(|pending|)
      decreases |pending|, 1
    {
      active := active - 1;
      Pump();
    }

    method Visit(item: WalkItem)
      requires Valid() && Unanswered() && Slots(1) && Complete(setup, State(), Some(item)) && Reachable(setup, item)
      modifies this`pending, this`active, this`outcome, this`settlements, this`inFlight
      ensures Valid() && !failed
      ensures Work(setup.disk, State()) <= old(Work(setup.disk, State())) + ItemWork(setup.disk, item)
      ensures |pending| <= old(|pending|)
      ensures Steady() || (Running() && inFlight != [])
      decreases |pending|, 2
    {
      if item.absolute in statCache {
        AlreadyCached(setup, State(), item);
        Settle();
      } else {
        AskLstat(item);
      }
    }

    method AskLstat(item: WalkItem)
      requires Valid() && Unanswered() && Slots(1) && Complete(setup, State(), Some(item)) && Reachable(setup, item)
      modifies this`inFlight
      ensures Valid() && Running() && inFlight != []
      ensures Work(setup.disk, State()) == old(Work(setup.disk, State())) + ItemWork(setup.disk, item)
    {
      ghost var before := State();
      AskedLstat(setup, before, item);
      inFlight := inFlight + [Lstat(item)];
      assert State() == before.(inFlight := before.inFlight + [Lstat(item)]);
    }

    /** Takes the newest waiting item, and a slot for it. */
    method Pop() returns (item: WalkItem)
      requires Valid() && Running() && pending != [] && active < WALK_CONCURRENCY
      modifies this`pending, this`active
      ensures Valid() && Unanswered() && Slots(1) && Complete(setup, State(), Some(item)) && Reachable(setup, item)
      ensures Work(setup.disk, State()) + ItemWork(setup.disk, item) == old(Work(setup.disk, State()))
      ensures |pending| == old(|pending|) - 1
    {
      ghost var before := State();
      Popped(setup, before);
      item := pending[|pending| - 1];
      pending := pending[..|pending| - 1];
      active := active + 1;
      assert State() == before.(pending := pending);
    }

    method Pump()
      requires Valid() && Running() && active < WALK_CONCURRENCY
      modifies this`pending, this`active, this`outcome, this`settlements, this`inFlight
      ensures Valid() && Steady() && !failed
      ensures Work(setup.disk, State()) <= old(Work(setup.disk, State())) && |pending| <= old(|pending|)
      decreases |pending|, 0
    {
      if pending == [] && active == 0 {
        outcome, settlements := Resolved, settlements + 1;
        return;
      }
      while pending != []
        invariant Valid() && !failed && active < WALK_CONCURRENCY
        invariant Work(setup.disk, State()) <= old(Work(setup.disk, State())) && |pending| <= old(|pending|)
        invariant Steady() || (Running() && (inFlight != [] || pending != []))
        decreases |pending|
      {
        var item := Pop();
        Visit(item);
        if active >= WALK_CONCURRENCY { return; }
      }
    }

    /** `lstat`'s callback, called with what the filesystem has at the path. */
    method OnLstat(i: nat, stat: Stats)
      requires Valid() && Steady() && outcome == Unsettled && i < |inFlight| && inFlight[i].Lstat?
      requires var found := Lookup(setup.disk, inFlight[i].item.absolute);
               found.Some? && stat == StatsOf(found.value)
      modifies this
      ensures Valid() && Steady() && !failed
      ensures Work(setup.disk, State()) < old(Work(setup.disk, State()))
    {
      if stat.isDirectory && filter(inFlight[i].item.entryPath, stat) {
        EnterDirectory(i, stat);
      } else {
        PassOver(i, stat);
        Settle();
      }
    }

    method EnterDirectory(i: nat, stat: Stats)
      requires Valid() && Steady() && outcome == Unsettled && i < |inFlight| && inFlight[i].Lstat?
      requires Enters(setup, inFlight[i].item) && stat == Stats(true, 1)
      modifies this`statCache, this`inFlight
      ensures Valid() && Steady()
      ensures Work(setup.disk, State()) < old(Work(setup.disk, State()))
    {
      var item := inFlight[i].item;
      ghost var before := State();
      AskedReaddir(setup, before, i);
      statCache, inFlight := statCache[item.absolute := stat], Without(inFlight, i) + [Readdir(item)];
      assert State() == before.(inFlight := inFlight, statCache := statCache);
    }

    method PassOver(i: nat, stat: Stats)
      requires Valid() && Running() && i < |inFlight| && inFlight[i].Lstat?
      requires Lookup(setup.disk, inFlight[i].item.absolute).Some? && !Enters(setup, inFlight[i].item)
      requires stat == StatsOf(Lookup(setup.disk, inFlight[i].item.absolute).value)
      modifies this`statCache, this`inFlight
      ensures Valid() && Unanswered() && Slots(1) && Complete(setup, State(), None)
      ensures Work(setup.disk, State()) < old(Work(setup.disk, State()))
    {
      NotEntered(setup, State(), i);
      StoreStat(i, stat);
    }

    method StoreStat(i: nat, stat: Stats)
      requires i < |inFlight| && Lookup(setup.disk, inFlight[i].item.absolute).Some?
      requires stat == StatsOf(Lookup(setup.disk, inFlight[i].item.absolute).value)
      modifies this`statCache, this`inFlight
      ensures State() == Statted(setup, old(State()), i)
    {
      var item := inFlight[i].item;
      statCache, inFlight := statCache[item.absolute := stat], Without(inFlight, i);
    }

    /** `readdir`'s callback. */
    method OnReaddir(i: nat, names: seq<string>)
      requires Valid() && Running() && i < |inFlight| && inFlight[i].Readdir?
      requires IsFolder(setup, inFlight[i].item.absolute) && names == Listing(setup, inFlight[i].item.absolute)
      modifies this
      ensures Valid() && Steady() && !failed
      ensures Work(setup.disk, State()) < old(Work(setup.disk, State()))
    {
      CacheListing(i, names);
      Settle();
    }

    /** Caches the names and queues a child for each; the call's slot stays held. */
    method CacheListing(i: nat, names: seq<string>)
      requires Valid() && Running() && i < |inFlight| && inFlight[i].Readdir?
      requires IsFolder(setup, inFlight[i].item.absolute) && names == Listing(setup, inFlight[i].item.absolute)
      modifies this`inFlight, this`readdirCache, this`pending
      ensures Valid() && Unanswered() && Slots(1) && Complete(setup, State(), None)
      ensures Work(setup.disk, State()) < old(Work(setup.disk, State()))
    {
      Listed(setup, State(), i);
      StoreListing(i, names);
    }

    method StoreListing(i: nat, names: seq<string>)
      requires i < |inFlight|
      modifies this`inFlight, this`readdirCache, this`pending
      ensures State() == WithListing(old(State()), i, names)
    {
      var item := inFlight[i].item;
      inFlight := Without(inFlight, i);
      readdirCache := readdirCache[item.absolute := names];
      pending := pending + Children(item, names);
    }

    /** The event loop answers call `i`. `found` is what the filesystem has there;
        `ok` may be false for any reason, and is when there is nothing. After a
        failure the answers still to come are ignored. */
    method Answer(i: nat, found: Option<Disk>, ok: bool)
      requires Valid() && Steady() && outcome != Resolved
      requires i < |inFlight| && found == Lookup(setup.disk, inFlight[i].item.absolute) && (ok ==> found.Some?)
      modifies this
      ensures Valid() && Steady()
      ensures old(outcome) == Unsettled && outcome != Rejected ==> Work(setup.disk, State()) < old(Work(setup.disk, State()))
      ensures outcome == Rejected <==> old(outcome) == Rejected || !ok
      ensures old(outcome) == Rejected ==>
        pending == old(pending) && statCache == old(statCache) && readdirCache == old(readdirCache)
    {
      if failed {
        Forget(i);
      } else if !ok {
        Forget(i);
        Fail();
      } else if inFlight[i].Lstat? {
        OnLstat(i, StatsOf(found.value));
      } else {
        assert Enters(setup, inFlight[i].item);
        OnReaddir(i, Names(found.value.children));
      }
    }

    /** A call whose callback does nothing with its answer. */
    method Forget(i: nat)
      requires Valid() && i < |inFlight|
      modifies this`inFlight
      ensures Valid() && inFlight == Without(old(inFlight), i)
    {
      SoundWithout(setup, State(), i);
      inFlight := Without(inFlight, i);
    }
  }

  /** Every root is there and the event loop fails no call. */
  ghost predicate NothingFails(setup: Setup, chooser: (nat, nat) -> (nat, bool)) {
    && (forall r | 0 <= r < |setup.roots| :: Lookup(setup.disk, setup.roots[r].absolute).Some?)
    && (forall turn, calls :: chooser(turn, calls).1)
  }

  /** The walk from first pump to settlement, the event loop answering calls in
      any order and failing any of them it likes. It never waits with nothing in
      flight, always ends, settles its promise once, rejects exactly when a call
      `failed`, and otherwise has cached exactly what it could reach. */
  method SingleLinkTarCaches(setup: Setup, chooser: (nat, nat) -> (nat, bool))
    returns (walk: Walk, ghost failed: bool)
    requires DistinctNames(setup.disk) && JudgesAlike(setup)
    ensures walk.settlements == 1 && walk.outcome != Unsettled
    ensures walk.outcome == Rejected <==> failed
    ensures NothingFails(setup, chooser) ==> !failed
    ensures !failed ==> Exact(setup, walk.statCache, walk.readdirCache)
    ensures !failed && PlainNames(setup.disk) ==> CachedExactly(setup, walk.statCache, walk.readdirCache)
  {
    walk := new Walk(setup, setup.filter, setup.roots);
    walk.Pump();
    var turn: nat := 0;
    failed := false;
    while walk.outcome == Unsettled
      invariant fresh(walk) && walk.setup == setup && walk.Valid() && walk.Steady()
      invariant walk.outcome == Rejected <==> failed
      invariant NothingFails(setup, chooser) ==> !failed
      decreases walk.outcome == Unsettled, Work(setup.disk, walk.State())
    {
      var choice := chooser(turn, |walk.inFlight|);
      var i := choice.0 % |walk.inFlight|;
      var found := Lookup(setup.disk, walk.inFlight[i].item.absolute);
      var ok := choice.1 && found.Some?;
      if NothingFails(setup, chooser) { ReachableExists(setup, walk.inFlight[i].item); }
      walk.Answer(i, found, ok);
      failed := failed || !ok;
      turn := turn + 1;
    }
    if !failed {
      FinishedIsExact(setup, walk.State());
      if PlainNames(setup.disk) { ExactInPlainTerms(setup, walk.statCache, walk.readdirCache); }
    }
  }

  /** The path that matters to the source packer's filter, spelled out. */
  lemma ModulesAreShownWhole(absolute: Path)
    ensures Descend(WalkItem(".kici", absolute), ["node_modules"]).entryPath == ".kici/node_modules"
  {
    PlainFront(".kici");
    assert ".kici" + "/" == ".kici/";
    ModulesIsPlain();
    ShownUnderItsPath(WalkItem(".kici", absolute), ".kici/", ["node_modules"]);
  }

  lemma ModulesIsPlain()
    ensures PlainName("node_modules") && Join(["node_modules"], '/') == "node_modules"
    ensures ".kici/" + "node_modules" == ".kici/node_modules"
  {
  }
}
