/** Whole-pool facts: how the tables may change while files are built, and what every committed pool satisfies. */
module PoolState {
  import opened Wrappers
  import opened Names
  import opened Protos
  import opened Descriptors
  import opened SymbolTables
  import opened Declarations
  import opened Uses
  import Imports

  /** The state of the tables between two steps of a build. */
  datatype Snapshot = Snapshot(
    now: Contents, checkpoints: seq<CheckPoint>, history: History, pending: seq<string>, next: Addr)

  ghost function Snap(t: Tables): Snapshot
    reads t
  {
    Snapshot(t.Now(), t.checkpoints, t.history, t.pendingFiles, t.next)
  }

  /** The symbol table without addresses. */
  function View(symbols: map<string, Entry<Symbol>>): map<string, Info> {
    map k | k in symbols ::
      Info(symbols[k].value.kind, symbols[k].value.fullName, symbols[k].value.file, symbols[k].value.facts)
  }

  ghost predicate Extends<K, V>(a: map<K, V>, b: map<K, V>) {
    forall k :: k in a ==> k in b && b[k] == a[k]
  }

  // ---------- registering the declarations of one file ----------

  /** The tables after registering declarations: only symbols and storage were added. */
  ghost predicate Registers(s: Snapshot, s': Snapshot, es: seq<Element>, file: Addr, failed: bool, failed': bool) {
    && Adds(s, s')
    && Book(View(s'.now.symbols), failed') == RegisterAll(Book(View(s.now.symbols), failed), es, file)
  }

  ghost predicate Adds(s: Snapshot, s': Snapshot) {
    && s'.checkpoints == s.checkpoints && s'.history == s.history && s'.pending == s.pending && s.next <= s'.next
    && s'.now.files == s.now.files && s'.now.extensions == s.now.extensions && s'.now.memory == s.now.memory
    && s'.now.order == s.now.order
    && s.now.strings <= s'.now.strings && s.now.allocations <= s'.now.allocations
    && Extends(s.now.symbols, s'.now.symbols)
  }

  lemma AddsTrans(s: Snapshot, s': Snapshot, s'': Snapshot)
    requires Adds(s, s') && Adds(s', s'')
    ensures Adds(s, s'')
  {
  }

  lemma RegistersConcat(s: Snapshot, s': Snapshot, s'': Snapshot, es: seq<Element>, fs: seq<Element>, file: Addr,
                        failed: bool, failed': bool, failed'': bool)
    requires Registers(s, s', es, file, failed, failed') && Registers(s', s'', fs, file, failed', failed'')
    ensures Registers(s, s'', es + fs, file, failed, failed'')
  {
    RegisterConcat(Book(View(s.now.symbols), failed), es, fs, file);
  }

  lemma ViewInsert(symbols: map<string, Entry<Symbol>>, name: string, e: Entry<Symbol>)
    ensures View(symbols[name := e])
         == View(symbols)[name := Info(e.value.kind, e.value.fullName, e.value.file, e.value.facts)]
  {
  }

  /** How an enum value gets its full name: the name of its enum is cut off and replaced. */
  lemma SiblingName(scope: string, enumName: string, valueName: string)
    ensures var full := Qualify(scope, enumName);
            full[..|full| - |enumName|] + valueName == Qualify(scope, valueName)
  {
  }

  // ---------- building whole files ----------

  /** A file may use a symbol if it is its own or belongs to a file that it reaches through its imports: directly, or
      by public imports from there. */
  ghost predicate MayUse(m: map<Addr, FileDescriptor>, a: Addr, b: Addr)
    requires a in m
  {
    b == a || Imports.Reachable(m, Imports.Present(m[a].dependencies), b)
  }

  /** Every use of a type in a file is resolved: it names a symbol of the right kind, in a file it may use symbols
      from when dependencies are enforced. */
  ghost predicate Linked(c: Contents, a: Addr, strict: bool) {
    a in c.memory && forall u :: FileUses(c.memory[a], u) ==> Resolved(c, a, u, strict)
  }

  ghost predicate Resolved(c: Contents, a: Addr, u: Use, strict: bool)
    requires a in c.memory
  {
    u.name.Some? && CStr(u.name.value) in c.symbols &&
    var symbol := c.symbols[CStr(u.name.value)].value;
    && symbol.fullName == u.name.value && symbol.kind == u.kind
    && (strict ==> MayUse(c.memory, a, symbol.file))
  }

  /** The public imports of every file are still there. */
  ghost predicate SameImports(m: map<Addr, FileDescriptor>, m': map<Addr, FileDescriptor>) {
    forall a :: a in m ==>
      && a in m' && m'[a].dependencies == m[a].dependencies && m'[a].publicDependencies == m[a].publicDependencies
  }

  lemma ReachableLater(m: map<Addr, FileDescriptor>, m': map<Addr, FileDescriptor>, roots: set<Addr>, b: Addr)
    requires SameImports(m, m') && Imports.Reachable(m, roots, b)
    ensures Imports.Reachable(m', roots, b)
  {
    var path :| Imports.Chain(m, path) && path[0] in roots && path[|path| - 1] == b;
    forall i | 0 <= i < |path| - 1 ensures Imports.Edge(m', path[i], path[i + 1]) {
      assert Imports.Edge(m, path[i], path[i + 1]);
      assert Imports.PublicImports(m', path[i]) == Imports.PublicImports(m, path[i]);
    }
    assert Imports.Chain(m', path);
  }

  lemma MayUseLater(m: map<Addr, FileDescriptor>, m': map<Addr, FileDescriptor>, a: Addr, b: Addr)
    requires a in m && SameImports(m, m') && MayUse(m, a, b)
    ensures MayUse(m', a, b)
  {
    if b != a {
      ReachableLater(m, m', Imports.Present(m[a].dependencies), b);
    }
  }

  /** A linked file stays linked while other files are built. */
  lemma LinkedLater(b: Contents, c: Contents, a: Addr, strict: bool)
    requires Linked(b, a, strict) && Extends(b.symbols, c.symbols) && SameImports(b.memory, c.memory)
    requires c.memory[a] == b.memory[a]
    ensures Linked(c, a, strict)
  {
    hide FileUses, MayUse;
    forall u | FileUses(c.memory[a], u) ensures Resolved(c, a, u, strict) {
      assert Resolved(b, a, u, strict);
      if strict {
        MayUseLater(b.memory, c.memory, a, b.symbols[CStr(u.name.value)].value.file);
      }
    }
  }

  /** One or more files were built (or nothing happened): everything that was there is still there, every new symbol
      belongs to a new file, and every new file is linked. */
  ghost predicate Grows(a: Contents, b: Contents, strict: bool) {
    Kept(a, b) && NewLinked(a, b, strict)
  }

  ghost predicate Kept(a: Contents, b: Contents) {
    && Extends(a.symbols, b.symbols) && Extends(a.files, b.files) && Extends(a.extensions, b.extensions)
    && Extends(a.memory, b.memory)
    && a.strings <= b.strings && a.allocations <= b.allocations && a.order <= b.order
    && (forall k :: k in b.symbols && k !in a.symbols ==> b.symbols[k].value.file !in a.memory)
    && (forall n :: n in b.files && n !in a.files ==> b.files[n].value !in a.memory)
  }

  ghost predicate NewLinked(a: Contents, b: Contents, strict: bool) {
    forall n :: n in b.files && n !in a.files ==> Linked(b, b.files[n].value, strict)
  }

  /** Every loaded file is linked. */
  ghost predicate AllLinked(c: Contents, strict: bool) {
    forall n :: n in c.files ==> Linked(c, c.files[n].value, strict)
  }

  /** Building more files keeps all files linked, the old ones and the new ones. */
  lemma AllLinkedGrows(a: Contents, b: Contents, strict: bool)
    requires AllLinked(a, strict) && Grows(a, b, strict)
    ensures AllLinked(b, strict)
  {
    hide Linked;
    forall n | n in b.files ensures Linked(b, b.files[n].value, strict) {
      if n in a.files {
        assert b.files[n] == a.files[n];
        LinkedStays(a, b, a.files[n].value, strict);
      }
    }
  }

  /** A file is linked once it is filled in with descriptors whose uses were resolved while it was cross-linked. */
  lemma KnownLinked(start: Contents, last: Contents, done: Contents, file: Addr, f: FileDescriptor, files: set<Addr>,
                    strict: bool)
    requires file in start.memory && Extends(start.memory, last.memory)
    requires done.memory == last.memory[file := f] && done.symbols == last.symbols
    requires f.dependencies == start.memory[file].dependencies
    requires f.publicDependencies == start.memory[file].publicDependencies
    requires FileKnown(f, Sight(last.symbols, files, strict))
    requires forall a :: a in files ==> MayUse(start.memory, file, a)
    ensures Linked(done, file, strict)
  {
    hide FileUses, MayUse;
    assert last.memory[file] == start.memory[file];
    forall u | FileUses(f, u) ensures Resolved(done, file, u, strict) {
      assert Known(u, Sight(last.symbols, files, strict));
      if strict {
        MayUseLater(start.memory, done.memory, file, done.symbols[CStr(u.name.value)].value.file);
      }
    }
  }

  /** The memory cells of files are kept, so their imports are. */
  lemma ExtendsImports(m: map<Addr, FileDescriptor>, m': map<Addr, FileDescriptor>)
    requires Extends(m, m')
    ensures SameImports(m, m')
  {
  }

  lemma GrowsTrans(a: Contents, b: Contents, c: Contents, strict: bool)
    requires Grows(a, b, strict) && Grows(b, c, strict)
    ensures Grows(a, c, strict)
  {
    hide NewLinked;
    NewLinkedTrans(a, b, c, strict);
  }

  lemma NewLinkedTrans(a: Contents, b: Contents, c: Contents, strict: bool)
    requires NewLinked(a, b, strict) && NewLinked(b, c, strict)
    requires Extends(b.symbols, c.symbols) && Extends(b.files, c.files) && Extends(b.memory, c.memory)
    ensures NewLinked(a, c, strict)
  {
    hide Linked;
    ExtendsImports(b.memory, c.memory);
    forall n | n in c.files && n !in a.files ensures Linked(c, c.files[n].value, strict) {
      if n in b.files {
        LinkedStays(b, c, b.files[n].value, strict);
      }
    }
  }

  lemma LinkedStays(b: Contents, c: Contents, a: Addr, strict: bool)
    requires Linked(b, a, strict) && Extends(b.symbols, c.symbols) && Extends(b.memory, c.memory)
    ensures Linked(c, a, strict)
  {
    ExtendsImports(b.memory, c.memory);
    LinkedLater(b, c, a, strict);
  }

  /** What is linked depends on the symbols, the files and their cells only. */
  lemma NewLinkedSame(a: Contents, b: Contents, c: Contents, strict: bool)
    requires NewLinked(a, b, strict)
    requires c.symbols == b.symbols && c.files == b.files && c.memory == b.memory
    ensures NewLinked(a, c, strict)
  {
    hide Linked;
    forall n | n in c.files && n !in a.files ensures Linked(c, c.files[n].value, strict) {
      LinkedStays(b, c, b.files[n].value, strict);
    }
  }

  lemma GrowsFiles(a: Contents, b: Contents, strict: bool)
    requires Grows(a, b, strict)
    ensures Extends(a.files, b.files)
  {
  }

  /** No file that is new was pending; one whose name has the same front part may have been. */
  ghost predicate NotPending(s: Snapshot, c: Contents) {
    forall n :: n in c.files && n !in s.now.files ==>
      c.files[n].value in c.memory && c.memory[c.files[n].value].name !in s.pending
  }

  /** What a nested activity guarantees to whoever started it. */
  ghost predicate Steps(s: Snapshot, s': Snapshot, strict: bool) {
    && s'.checkpoints == s.checkpoints && s'.history.saved == s.history.saved && s'.history.bounds == s.history.bounds
    && s'.pending == s.pending && s.next <= s'.next
    && Grows(s.now, s'.now, strict)
    && NotPending(s, s'.now)
  }

  lemma StepsTrans(s: Snapshot, s': Snapshot, s'': Snapshot, strict: bool)
    requires Steps(s, s', strict) && Steps(s', s'', strict)
    ensures Steps(s, s'', strict)
  {
    hide Grows;
    GrowsTrans(s.now, s'.now, s''.now, strict);
    GrowsFiles(s.now, s'.now, strict);
    GrowsFiles(s'.now, s''.now, strict);
    StepsMemory(s', s'', strict);
    forall n | n in s''.now.files && n !in s.now.files
      ensures s''.now.files[n].value in s''.now.memory
      ensures s''.now.memory[s''.now.files[n].value].name !in s.pending
    {
      if n in s'.now.files {
        assert s''.now.files[n] == s'.now.files[n];
      }
    }
  }

  lemma StepsMemory(s: Snapshot, s': Snapshot, strict: bool)
    requires Steps(s, s', strict)
    ensures Extends(s.now.memory, s'.now.memory)
  {
  }

  lemma StepsSymbols(s: Snapshot, s': Snapshot, strict: bool)
    requires Steps(s, s', strict)
    ensures Extends(s.now.symbols, s'.now.symbols)
  {
  }

  lemma StepsRefl(s: Snapshot, strict: bool)
    ensures Steps(s, s, strict)
  {
  }

  lemma StepsExtension(s: Snapshot, s': Snapshot, s'': Snapshot, key: (Ptr, int), field: Ptr, strict: bool)
    requires Steps(s, s', strict)
    requires s''.now == s'.now || (key !in s'.now.extensions && s''.now == WithExtension(s'.now, key, field))
    requires s'' == s'.(now := s''.now)
    ensures Steps(s, s'', strict)
  {
    hide NewLinked;
    NewLinkedSame(s.now, s'.now, s''.now, strict);
  }

  lemma StepsAllocate(s: Snapshot, s': Snapshot, s'': Snapshot, strict: bool)
    requires Steps(s, s', strict)
    requires s'.now.allocations <= s''.now.allocations && s''.next >= s'.next
    requires s'' == s'.(now := s'.now.(allocations := s''.now.allocations), next := s''.next)
    ensures Steps(s, s'', strict)
  {
    hide NewLinked;
    NewLinkedSame(s.now, s'.now, s''.now, strict);
  }

  lemma StepsBlock(s: Snapshot, s': Snapshot, strict: bool)
    requires Steps(s, s', strict)
    ensures s.now.allocations <= s'.now.allocations
  {
  }

  /** Loading the imports of a file with the file pending is a step of the pool without it, and does not load it. */
  lemma StepsPending(s0: Snapshot, s1: Snapshot, s2: Snapshot, s3: Snapshot, name: string, strict: bool)
    requires s1 == s0.(pending := s0.pending + [name]) && Steps(s1, s2, strict) && s3 == s2.(pending := s0.pending)
    requires CStr(name) !in s0.now.files
    ensures Steps(s0, s3, strict)
    ensures CStr(name) in s3.now.files ==>
              var a := s3.now.files[CStr(name)].value;
              a in s3.now.memory && s3.now.memory[a].name != name
  {
  }

  // ---------- committed pools ----------

  ghost predicate Loaded(c: Contents, a: Addr) {
    a in c.memory && CStr(c.memory[a].name) in c.files && c.files[CStr(c.memory[a].name)].value == a
  }

  /** Every import of a loaded file is loaded. */
  ghost predicate ImportsLoaded(c: Contents) {
    forall n :: n in c.files ==>
      c.files[n].value in c.memory && AllLoaded(c, c.memory[c.files[n].value].dependencies)
  }

  ghost predicate AllLoaded(c: Contents, ds: seq<Option<Addr>>) {
    forall d :: d in ds ==> d.Some? && Loaded(c, d.value)
  }

  ghost predicate SymbolsLoaded(c: Contents) {
    forall k :: k in c.symbols ==> Loaded(c, c.symbols[k].value.file)
  }

  /** Every loaded file was added once, and the files were allocated in the order in which they were added. */
  ghost predicate Ordered(c: Contents) {
    && (forall a :: a in c.order <==> Loaded(c, a))
    && forall i, j :: 0 <= i < j < |c.order| ==> c.order[i] < c.order[j]
  }

  ghost predicate Good(c: Contents)
  {
    && Live(c)
    && ImportsLoaded(c)
    && SymbolsLoaded(c)
    && Ordered(c)
    && WholeNames(View(c.symbols))
    && (PlainPackages(c) ==> PrefixClosed(View(c.symbols)))
  }

  /** No loaded file has a package with a NUL. */
  ghost predicate PlainPackages(c: Contents) {
    forall n :: n in c.files && c.files[n].value in c.memory ==> NulFree(c.memory[c.files[n].value].package)
  }

  lemma GoodIgnoresLogs(c: Contents, d: Contents)
    requires Good(c)
    requires d.symbols == c.symbols && d.files == c.files && d.memory == c.memory && d.order == c.order && Live(d)
    ensures Good(d)
  {
    hide CStr, Live, View, WholeNames, PrefixClosed, PlainPackages;
    FilesSame(c, d);
    PackagesSame(c, d);
  }

  lemma GoodUpdate(c: Contents, d: Contents, a: Addr, f: FileDescriptor)
    requires Good(c) && Live(d) && a in c.memory
    requires f.name == c.memory[a].name && f.package == c.memory[a].package
    requires f.dependencies == c.memory[a].dependencies
    requires d.symbols == c.symbols && d.files == c.files && d.memory == c.memory[a := f] && d.order == c.order
    ensures Good(d)
  {
    hide CStr, Live, View, WholeNames, PrefixClosed, PlainPackages;
    FilesSame(c, d);
    PackagesSame(c, d);
  }

  /** Names, packages and imports of the files decide whether the files are in order. */
  ghost predicate SameFiles(c: Contents, d: Contents) {
    && d.symbols == c.symbols && d.files == c.files && d.order == c.order && d.memory.Keys == c.memory.Keys
    && forall a :: a in c.memory ==>
         && d.memory[a].name == c.memory[a].name && d.memory[a].package == c.memory[a].package
         && d.memory[a].dependencies == c.memory[a].dependencies
  }

  lemma FilesSame(c: Contents, d: Contents)
    requires ImportsLoaded(c) && SymbolsLoaded(c) && Ordered(c) && SameFiles(c, d)
    ensures ImportsLoaded(d) && SymbolsLoaded(d) && Ordered(d)
  {
    hide CStr;
    assert forall a :: Loaded(c, a) <==> Loaded(d, a);
    assert Ordered(d);
    hide Ordered, Loaded;
    forall n | n in d.files ensures AllLoaded(d, d.memory[d.files[n].value].dependencies) {
      assert AllLoaded(c, c.memory[c.files[n].value].dependencies);
    }
  }

  lemma PackagesSame(c: Contents, d: Contents)
    requires SameFiles(c, d)
    ensures PlainPackages(c) <==> PlainPackages(d)
  {
  }

  /** An import is at a lower address than the file that imports it, or it is that file. */
  lemma ImportsAreOlder(c: Contents, n: string, d: Addr)
    requires Good(c) && n in c.files && Some(d) in c.memory[c.files[n].value].dependencies
    ensures Loaded(c, d) && d <= c.files[n].value
  {
  }

  /** AddFile order is a topological order of the import graph: it lists the loaded files, each of them once, and
      whatever a file imports comes before it, unless the file imports itself. */
  lemma AddedAfterImports(c: Contents)
    requires Good(c)
    ensures forall n :: n in c.files <==> exists i :: 0 <= i < |c.order| && Keyed(c, c.order[i], n)
    ensures forall i, j :: 0 <= i < j < |c.order| ==> c.order[i] != c.order[j]
    ensures forall i, d :: 0 <= i < |c.order| && DependsOn(c, c.order[i], d) ==>
              exists j :: 0 <= j <= i && c.order[j] == d
  {
    forall n | n in c.files ensures exists i :: 0 <= i < |c.order| && Keyed(c, c.order[i], n) {
      assert Loaded(c, c.files[n].value);
      var i :| 0 <= i < |c.order| && c.order[i] == c.files[n].value;
      assert Keyed(c, c.order[i], n);
    }
    forall i, n | 0 <= i < |c.order| && Keyed(c, c.order[i], n) ensures n in c.files {
      assert Loaded(c, c.order[i]);
    }
    forall i, d | 0 <= i < |c.order| && DependsOn(c, c.order[i], d) ensures exists j :: 0 <= j <= i && c.order[j] == d {
      assert Loaded(c, c.order[i]);
      ImportsAreOlder(c, CStr(c.memory[c.order[i]].name), d);
      var j :| 0 <= j < |c.order| && c.order[j] == d;
      assert j <= i;
    }
  }

  ghost predicate Keyed(c: Contents, a: Addr, key: string) {
    a in c.memory && CStr(c.memory[a].name) == key
  }

  ghost predicate Named(c: Contents, a: Addr, name: string) {
    a in c.memory && c.memory[a].name == name
  }

  ghost predicate ImportPath(c: Contents, path: seq<Addr>) {
    && (forall i :: 0 <= i < |path| ==> Loaded(c, path[i]))
    && (forall i :: 0 <= i < |path| - 1 ==> DependsOn(c, path[i], path[i + 1]))
  }

  ghost predicate DependsOn(c: Contents, a: Addr, d: Addr) {
    a in c.memory && Some(d) in c.memory[a].dependencies
  }

  lemma {:induction false} PathDescends(c: Contents, path: seq<Addr>)
    requires Good(c) && ImportPath(c, path) && |path| > 0
    ensures forall i :: 0 <= i < |path| ==> path[|path| - 1] <= path[i] <= path[0]
  {
    if |path| > 1 {
      assert Loaded(c, path[0]) && DependsOn(c, path[0], path[1]);
      ImportsAreOlder(c, CStr(c.memory[path[0]].name), path[1]);
      var rest := path[1..];
      assert ImportPath(c, rest) by {
        forall i | 0 <= i < |rest| ensures Loaded(c, rest[i]) { assert rest[i] == path[i + 1]; }
        forall i | 0 <= i < |rest| - 1 ensures DependsOn(c, rest[i], rest[i + 1]) {
          assert DependsOn(c, path[i + 1], path[i + 2]);
        }
      }
      PathDescends(c, rest);
      forall i | 0 <= i < |path| ensures path[|path| - 1] <= path[i] <= path[0] {
        if i > 0 {
          assert path[i] == rest[i - 1];
        } else {
          assert rest[0] == path[1];
        }
      }
    }
  }

  /** No two different files of a committed pool import each other, directly or through others. */
  lemma NoImportCycle(c: Contents, path: seq<Addr>)
    requires Good(c) && ImportPath(c, path) && |path| > 0 && path[|path| - 1] == path[0]
    ensures forall i :: 0 <= i < |path| ==> path[i] == path[0]
  {
    PathDescends(c, path);
  }

  /** The lookup skip of IsSubSymbolOfBuiltType is sound: building more files never defines a missing name below
      a symbol that is not a package. `prefix` is any of the enclosing names, as the skip chops them off. */
  lemma SubSymbolNeverAppears(a: Contents, b: Contents, name: string, prefix: string, strict: bool)
    requires Good(a) && Good(b) && Grows(a, b, strict) && PlainPackages(b)
    requires Inside(name, prefix)
    requires CStr(prefix) in a.symbols && a.symbols[CStr(prefix)].value.kind != Package
    requires CStr(name) !in a.symbols
    ensures CStr(name) !in b.symbols
  {
    CutInside(name, prefix);
    if CStr(name) in b.symbols {
      InsideSameFile(View(b.symbols), CStr(name), CStr(prefix));
      assert false;
    }
  }

  /** A NUL in an enclosing name cuts off the same from both. */
  lemma CutInside(name: string, prefix: string)
    requires Inside(name, prefix)
    ensures CStr(name) == CStr(prefix) || Inside(CStr(name), CStr(prefix))
  {
    var rest := name[|prefix| + 1..];
    assert name == prefix + ("." + rest);
    hide CStr;
    CStrAppend(prefix, "." + rest);
    CStrCuts(".");
    CStrAppend(".", rest);
    CStrCuts(prefix);
    CStrCuts(name);
    assert !NulFree(prefix) || CStr(name) == prefix + ("." + CStr(rest));
  }

  /** The early stop of AddPackage is sound: all enclosing names of a package are registered as packages. */
  lemma EnclosingPackages(c: Contents, k: string, p: string)
    requires Good(c) && PlainPackages(c)
    requires k in c.symbols && c.symbols[k].value.kind == Package && Inside(k, p)
    ensures p in c.symbols && c.symbols[p].value.kind == Package
  {
    InsideSameFile(View(c.symbols), k, p);
  }

  // ---------- one file, from its checkpoint to the start of cross-linking ----------

  /** The contents while a file is being built on top of `base`, up to cross-linking. */
  ghost predicate FileDeclared(base: Contents, c: Contents, p: FileProto, file: Addr) {
    && Live(c)
    && Extends(base.symbols, c.symbols) && Extends(base.extensions, c.extensions)
    && base.strings <= c.strings && base.allocations <= c.allocations
    && file in c.memory && c.memory.Keys == base.memory.Keys + {file}
    && (forall a :: a in base.memory ==> a < file)
    && Extends(base.memory, c.memory)
    && CStr(p.name) !in base.files && c.files.Keys == base.files.Keys + {CStr(p.name)} && Extends(base.files, c.files)
    && c.files[CStr(p.name)].value == file && c.order == base.order + [file]
    && c.memory[file].name == p.name && c.memory[file].package == p.Package()
    && (forall k :: k in c.symbols && k !in base.symbols ==> c.symbols[k].value.file == file)
  }

  lemma JustDeclared(base: Contents, c: Contents, p: FileProto, file: Addr, key: Addr)
    requires Live(c) && forall a :: a in base.memory ==> a < file
    requires CStr(p.name) !in base.files
    requires c.symbols == base.symbols && c.extensions == base.extensions
    requires base.strings <= c.strings && base.allocations <= c.allocations
    requires c.files == base.files[CStr(p.name) := Entry(key, file)] && c.order == base.order + [file]
    requires file in c.memory && c.memory == base.memory[file := c.memory[file]]
    requires c.memory[file].name == p.name && c.memory[file].package == p.Package()
    ensures FileDeclared(base, c, p, file)
  {
  }

  /** An import that was found is a file of the base, or the file itself. */
  ghost predicate IsImport(base: Contents, file: Addr, fileName: string, d: Addr, name: string) {
    if CStr(name) == CStr(fileName) then d == file
    else CStr(name) in base.files && base.files[CStr(name)].value == d
  }

  /** Every import is written as the name of the file that is found for it. */
  ghost predicate ImportsSpelled(c: Contents, p: FileProto) {
    forall n :: n in p.dependencies ==>
      if CStr(n) == CStr(p.name) then n == p.name else CStr(n) in c.files ==> Named(c, c.files[CStr(n)].value, n)
  }

  /** When CopyTo gives a proto back, its imports were written as the names of files that were there, or as its own
      name. */
  lemma ImportsSpelledBack(b: Contents, c: Contents, a: Addr, p: FileProto)
    requires Live(b) && ImportsLoaded(c) && Loaded(c, a) && CopyFile(c.memory[a], c.memory) == p
    requires Extends(b.files, c.files) && Extends(b.memory, c.memory)
    ensures ImportsSpelled(b, p)
  {
    hide CStr, CopyMessage, CopyEnums, CopyService, CopyFields;
    var f := c.memory[a];
    assert AllLoaded(c, f.dependencies);
    forall n | n in p.dependencies
      ensures if CStr(n) == CStr(p.name) then n == p.name
              else CStr(n) in b.files ==> Named(b, b.files[CStr(n)].value, n)
    {
      var i :| 0 <= i < |p.dependencies| && p.dependencies[i] == n;
      var d := f.dependencies[i];
      assert d in f.dependencies && d.Some? && Loaded(c, d.value);
      assert c.memory[d.value].name == n;
    }
  }

  /** The names of types in a linked file are free of NULs. */
  lemma LinkedSpelled(c: Contents, a: Addr, strict: bool, u: Use)
    requires Linked(c, a, strict) && WholeNames(View(c.symbols)) && FileUses(c.memory[a], u)
    ensures u.name.Some? && NulFree(u.name.value)
  {
    FileUsesTypes(c.memory[a], u);
    hide FileUses, MayUse, CStr;
    assert Resolved(c, a, u, strict);
    var k := CStr(u.name.value);
    assert View(c.symbols)[k].fullName == k;
    CStrCuts(u.name.value);
  }

  lemma NewImportsLive(base: Contents, c: Contents, p: FileProto, file: Addr, f: FileDescriptor)
    requires FileDeclared(base, c, p, file) && |f.dependencies| == |p.dependencies|
    requires forall i :: 0 <= i < |f.dependencies| && f.dependencies[i].Some? ==>
               IsImport(base, file, p.name, f.dependencies[i].value, p.dependencies[i])
    ensures ImportsLive(file, f, c.memory.Keys)
  {
    hide CStr;
    forall d | d in f.dependencies && d.Some? ensures d.value in c.memory && d.value <= file {
      var i :| 0 <= i < |f.dependencies| && f.dependencies[i] == d;
      assert IsImport(base, file, p.name, d.value, p.dependencies[i]);
      var n := CStr(p.dependencies[i]);
      if n != CStr(p.name) {
        assert c.files[n] == base.files[n];
      }
    }
  }

  /** The state right after a builder opened its checkpoint. */
  ghost predicate Checkpointed(s: Snapshot, s0: Snapshot) {
    && s0.now == s.now && s0.pending == s.pending && s0.next == s.next
    && |s.history.saved| == |s.checkpoints| == |s.history.bounds|
    && s0.checkpoints == s.checkpoints + [Mark(s.now)]
    && s0.history == History(s.history.saved + [s.now], s.history.bounds + [s.next], s.history.freed)
  }

  /** The imports in the cell of a file are those that its proto names, unless an error was reported. */
  ghost predicate ImportsFound(base: Contents, file: Addr, p: FileProto, f: FileDescriptor, failed: bool) {
    && |f.dependencies| == |p.dependencies|
    && (forall i :: 0 <= i < |p.dependencies| ==>
          if f.dependencies[i].Some? then IsImport(base, file, p.name, f.dependencies[i].value, p.dependencies[i])
          else failed)
    && (!failed ==> f.publicDependencies == p.publicDependencies)
  }

  lemma ImportsSound(base: Contents, file: Addr, p: FileProto, f: FileDescriptor)
    requires ImportsFound(base, file, p, f, false)
    ensures forall d :: d in f.dependencies ==>
              d.Some? && (d.value == file || (exists n :: n in base.files && base.files[n].value == d.value))
  {
  }

  lemma ImportsFoundLater(base: Contents, file: Addr, p: FileProto, f: FileDescriptor, g: FileDescriptor,
                          failed: bool, failed': bool)
    requires ImportsFound(base, file, p, f, failed) && (failed ==> failed')
    requires g.dependencies == f.dependencies && g.publicDependencies == f.publicDependencies
    ensures ImportsFound(base, file, p, g, failed')
  {
  }

  /** Committing: from the state before the cell is filled in for the last time to the state after the checkpoint
      is cleared. */
  lemma CommitSteps(s: Snapshot, s0: Snapshot, start: Snapshot, last: Snapshot, done: Snapshot, p: FileProto,
                    file: Addr, f: FileDescriptor, strict: bool)
    requires Checkpointed(s, s0) && FileDeclared(s.now, start.now, p, file) && p.name !in s.pending
    requires start.checkpoints == s0.checkpoints && start.history == s0.history && start.pending == s0.pending
    requires s0.next <= start.next && Steps(start, last, strict)
    requires done == Snapshot(Cleared(last.now.(memory := last.now.memory[file := f]), |last.checkpoints| == 1),
                              last.checkpoints[..|last.checkpoints| - 1], Popped(last.history), last.pending, last.next)
    requires Linked(done.now, file, strict)
    requires f.dependencies == start.now.memory[file].dependencies && f.name == p.name
    requires f.publicDependencies == start.now.memory[file].publicDependencies
    ensures Steps(s, done, strict)
    ensures CStr(p.name) in done.now.files && done.now.files[CStr(p.name)].value == file && file in done.now.memory
  {
    hide Linked, NewLinked, CStr;
    CommitGrows(s.now, start.now, last.now, done.now, p, file, f, strict);
    assert start.now.files[CStr(p.name)].value == file;
    GrowsFiles(start.now, last.now, strict);
    hide Grows;
    forall n | n in done.now.files && n !in s.now.files
      ensures done.now.files[n].value in done.now.memory
      ensures done.now.memory[done.now.files[n].value].name !in s.pending
    {
      if n in start.now.files {
        assert last.now.files[n] == start.now.files[n];
      }
    }
  }

  lemma GrowsRefl(c: Contents, strict: bool)
    ensures Grows(c, c, strict)
  {
  }

  lemma RegistersOwn(s: Snapshot, s': Snapshot, es: seq<Element>, file: Addr, failed: bool, failed': bool)
    requires Registers(s, s', es, file, failed, failed')
    ensures forall k :: k in s'.now.symbols && k !in s.now.symbols ==> s'.now.symbols[k].value.file == file
    ensures failed ==> failed'
    ensures !failed' ==> AllOk(es)
  {
    var b := Book(View(s.now.symbols), failed);
    RegisterAllContents(b, es, file);
    assert View(s'.now.symbols) == RegisterAll(b, es, file).symbols;
    forall k | k in s'.now.symbols && k !in s.now.symbols ensures s'.now.symbols[k].value.file == file {
      assert k in View(s'.now.symbols) && k !in b.symbols;
      assert RegisterAll(b, es, file).symbols[k].file == file;
    }
  }

  lemma PackageOwn(s: Snapshot, s': Snapshot, name: string, file: Addr, failed: bool, failed': bool)
    requires Book(View(s'.now.symbols), failed') == RegisterPackage(Book(View(s.now.symbols), failed), name, file)
    ensures forall k :: k in s'.now.symbols && k !in s.now.symbols ==> s'.now.symbols[k].value.file == file
    ensures failed ==> failed'
  {
    var b := Book(View(s.now.symbols), failed);
    RegisterPackageContents(b, name, file);
    forall k | k in s'.now.symbols && k !in s.now.symbols ensures s'.now.symbols[k].value.file == file {
      assert k in View(s'.now.symbols) && k !in b.symbols;
    }
  }

  /** Filling in the cell of the file keeps it declared. */
  lemma DeclaredUpdate(base: Contents, c: Contents, d: Contents, p: FileProto, file: Addr, f: FileDescriptor)
    requires FileDeclared(base, c, p, file) && Live(d)
    requires d == c.(memory := c.memory[file := f]) && f.name == c.memory[file].name
             && f.package == c.memory[file].package
    ensures FileDeclared(base, d, p, file)
  {
  }

  lemma DeclaredAllocate(base: Contents, c: Contents, d: Contents, p: FileProto, file: Addr)
    requires FileDeclared(base, c, p, file) && Live(d)
    requires d == c.(allocations := d.allocations) && c.allocations <= d.allocations
    ensures FileDeclared(base, d, p, file)
  {
  }

  /** Nested builds on top of a declared file, and the final update of its cell, only add to the base. */
  lemma CommitGrows(base: Contents, c: Contents, d: Contents, e: Contents, p: FileProto, file: Addr, f: FileDescriptor,
                    strict: bool)
    requires FileDeclared(base, c, p, file) && Grows(c, d, strict)
    requires e.symbols == d.symbols && e.files == d.files && e.extensions == d.extensions
    requires e.strings == d.strings && e.allocations == d.allocations && e.memory == d.memory[file := f]
    requires e.order == d.order && Linked(e, file, strict)
    requires f.dependencies == c.memory[file].dependencies
    requires f.publicDependencies == c.memory[file].publicDependencies
    ensures Grows(base, e, strict)
  {
    hide Linked, NewLinked, CStr, Live;
    CommitKept(base, c, d, e, p, file, f);
    assert d.memory[file] == c.memory[file];
    CommitLinked(base, c, d, e, CStr(p.name), file, strict);
  }

  lemma CommitKept(base: Contents, c: Contents, d: Contents, e: Contents, p: FileProto, file: Addr, f: FileDescriptor)
    requires FileDeclared(base, c, p, file) && Kept(c, d)
    requires e.symbols == d.symbols && e.files == d.files && e.extensions == d.extensions
    requires e.strings == d.strings && e.allocations == d.allocations && e.memory == d.memory[file := f]
    requires e.order == d.order
    ensures Kept(base, e)
  {
    hide CStr, Live;
    forall k | k in e.symbols && k !in base.symbols ensures e.symbols[k].value.file !in base.memory {
      if k in c.symbols {
        assert d.symbols[k] == c.symbols[k];
      }
    }
    forall n | n in e.files && n !in base.files ensures e.files[n].value !in base.memory {
      if n in c.files {
        assert d.files[n] == c.files[n];
      }
    }
  }

  lemma CommitLinked(base: Contents, c: Contents, d: Contents, e: Contents, name: string, file: Addr, strict: bool)
    requires c.files.Keys == base.files.Keys + {name} && c.files[name].value == file && Extends(c.files, d.files)
    requires NewLinked(c, d, strict) && Linked(e, file, strict)
    requires e.symbols == d.symbols && e.files == d.files && SameImports(d.memory, e.memory)
    requires forall a :: a in d.memory && a != file ==> e.memory[a] == d.memory[a]
    ensures NewLinked(base, e, strict)
  {
    hide Linked, SameImports;
    forall n | n in e.files && n !in base.files ensures Linked(e, e.files[n].value, strict) {
      if d.files[n].value != file {
        assert n !in c.files && Linked(d, d.files[n].value, strict);
        LinkedElsewhere(d, e, d.files[n].value, strict);
      }
    }
  }

  lemma LinkedElsewhere(d: Contents, e: Contents, a: Addr, strict: bool)
    requires Linked(d, a, strict) && e.symbols == d.symbols && SameImports(d.memory, e.memory)
    requires a in d.memory ==> e.memory[a] == d.memory[a]
    ensures Linked(e, a, strict)
  {
    LinkedLater(d, e, a, strict);
  }

  ghost predicate FileSound(base: Contents, c: Contents, p: FileProto, file: Addr)
    requires file in c.memory
  {
    && (forall d :: d in c.memory[file].dependencies ==>
          d.Some? && (d.value == file || (exists n :: n in base.files && base.files[n].value == d.value)))
    && Book(View(c.symbols), false)
       == RegisterAll(PackageBook(Book(View(base.symbols), false), p, file), FileElements(p), file)
  }

  /** The table holds what a file declares, as symbols of that file, and its package. */
  ghost predicate Declares(symbols: map<string, Entry<Symbol>>, p: FileProto, file: Addr) {
    && (forall e :: e in FileElements(p) ==>
          CStr(e.fullName) in symbols && Declared(symbols[CStr(e.fullName)].value, e, file))
    && (p.Package() != "" ==> CStr(p.Package()) in symbols && symbols[CStr(p.Package())].value.kind == Package)
  }

  ghost predicate Declared(s: Symbol, e: Element, file: Addr) {
    s.kind == e.kind && s.fullName == e.fullName && s.facts == e.facts && s.file == file
  }

  /** Registering without errors enters every declaration of a file. */
  lemma AllDeclared(base: Contents, c: Contents, p: FileProto, file: Addr)
    requires file in c.memory && FileSound(base, c, p, file)
    ensures Declares(c.symbols, p, file)
  {
    hide FileElements, RegisterAll, RegisterPackage;
    var b := PackageBook(Book(View(base.symbols), false), p, file);
    RegisterAllContents(b, FileElements(p), file);
    forall e | e in FileElements(p)
      ensures CStr(e.fullName) in c.symbols && Declared(c.symbols[CStr(e.fullName)].value, e, file)
    {
      assert CStr(e.fullName) in View(c.symbols);
    }
    if p.Package() != "" {
      RegisterPackageTop(Book(View(base.symbols), false), p.Package(), file);
      assert CStr(p.Package()) in View(c.symbols);
    }
  }

  lemma DeclaresLater(a: map<string, Entry<Symbol>>, b: map<string, Entry<Symbol>>, p: FileProto, file: Addr)
    requires Declares(a, p, file) && Extends(a, b)
    ensures Declares(b, p, file)
  {
    hide FileElements;
  }

  /** What is registered between the package and cross-linking makes the file sound, if no error was reported. */
  lemma SoundFile(base: Contents, before: Snapshot, declared: Snapshot, c: Contents, p: FileProto, file: Addr,
                  f: FileDescriptor, packageBook: Book)
    requires file in c.memory && c.memory[file].dependencies == f.dependencies && c.symbols == declared.now.symbols
    requires packageBook == PackageBook(Book(View(base.symbols), false), p, file)
    requires packageBook == Book(View(before.now.symbols), false)
    requires Registers(before, declared, FileElements(p), file, false, false)
    requires ImportsFound(base, file, p, f, false)
    ensures FileSound(base, c, p, file)
  {
    hide FileElements, RegisterAll, RegisterPackage;
    ImportsSound(base, file, p, f);
  }

  lemma LoadedKept(a: Contents, b: Contents, f: Addr)
    requires Loaded(a, f) && Extends(a.files, b.files) && Extends(a.memory, b.memory)
    ensures Loaded(b, f)
  {
  }

  /** A file whose declarations and imports raised no error keeps a good pool good. */
  lemma DeclaredGood(base: Contents, c: Contents, p: FileProto, file: Addr)
    requires Good(base) && FileDeclared(base, c, p, file) && FileSound(base, c, p, file)
    ensures Good(c)
  {
    hide RegisterAll, RegisterPackage, View, FileElements, PrefixClosed, Ordered, WholeNames, PlainPackages;
    assert Loaded(c, file);
    forall k | k in c.symbols ensures Loaded(c, c.symbols[k].value.file) {
      if k in base.symbols {
        assert c.symbols[k] == base.symbols[k];
        LoadedKept(base, c, base.symbols[k].value.file);
      }
    }
    DeclaredImports(base, c, p, file);
    DeclaredOrdered(base, c, p, file);
    DeclaredWhole(base, c, p, file);
    if PlainPackages(c) {
      PackagesBefore(base, c, p, file);
      DeclaredClosed(base, c, p, file);
    }
  }

  lemma DeclaredImports(base: Contents, c: Contents, p: FileProto, file: Addr)
    requires ImportsLoaded(base) && FileDeclared(base, c, p, file) && FileSound(base, c, p, file)
    ensures ImportsLoaded(c)
  {
    hide RegisterAll, RegisterPackage, View, FileElements;
    assert Loaded(c, file);
    forall n | n in c.files ensures AllLoaded(c, c.memory[c.files[n].value].dependencies) {
      if n != CStr(p.name) {
        assert c.files[n] == base.files[n];
        assert AllLoaded(base, base.memory[base.files[n].value].dependencies);
        forall d | d in base.memory[base.files[n].value].dependencies ensures d.Some? && Loaded(c, d.value) {
          LoadedKept(base, c, d.value);
        }
      } else {
        forall d | d in c.memory[file].dependencies ensures d.Some? && Loaded(c, d.value) {
          if d.value != file {
            var m :| m in base.files && base.files[m].value == d.value;
            assert Loaded(base, d.value);
            LoadedKept(base, c, d.value);
          }
        }
      }
    }
  }

  lemma DeclaredOrdered(base: Contents, c: Contents, p: FileProto, file: Addr)
    requires Ordered(base) && FileDeclared(base, c, p, file)
    ensures Ordered(c)
  {
    hide CStr, Live;
    forall a | a in c.order ensures Loaded(c, a) {
      if a != file {
        assert Loaded(base, a);
        LoadedKept(base, c, a);
      }
    }
    forall a | Loaded(c, a) ensures a in c.order {
      if a == file {
        assert c.order[|base.order|] == a;
      } else {
        var n := CStr(c.memory[a].name);
        assert c.files[n] == base.files[n];
        assert Loaded(base, a);
      }
    }
    forall i, j | 0 <= i < j < |c.order| ensures c.order[i] < c.order[j] {
      assert Loaded(base, base.order[i]);
    }
  }

  lemma DeclaredWhole(base: Contents, c: Contents, p: FileProto, file: Addr)
    requires WholeNames(View(base.symbols)) && file in c.memory && FileSound(base, c, p, file)
    ensures WholeNames(View(c.symbols))
  {
    hide FileElements, RegisterAll, RegisterPackage;
    var b0 := Book(View(base.symbols), false);
    var b := PackageBook(b0, p, file);
    RegisterAllContents(b, FileElements(p), file);
    if p.Package() != "" {
      RegisterPackageContents(b0, p.Package(), file);
      RegisterPackageTop(b0, p.Package(), file);
    }
    RegisterFileWhole(b, p, file);
  }

  lemma PackagesBefore(base: Contents, c: Contents, p: FileProto, file: Addr)
    requires FileDeclared(base, c, p, file) && PlainPackages(c)
    ensures PlainPackages(base) && NulFree(p.Package())
  {
    assert NulFree(c.memory[c.files[CStr(p.name)].value].package);
    forall n | n in base.files && base.files[n].value in base.memory
      ensures NulFree(base.memory[base.files[n].value].package)
    {
      assert c.files[n] == base.files[n];
    }
  }

  lemma DeclaredClosed(base: Contents, c: Contents, p: FileProto, file: Addr)
    requires PrefixClosed(View(base.symbols)) && NulFree(p.Package())
    requires file in c.memory && FileSound(base, c, p, file)
    ensures PrefixClosed(View(c.symbols))
  {
    hide FileElements, RegisterAll, RegisterPackage;
    var b0 := Book(View(base.symbols), false);
    if p.Package() == "" {
      RegisterFileClosed(b0, p, file);
    } else {
      var b := RegisterPackage(b0, p.Package(), file);
      RegisterAllContents(b, FileElements(p), file);
      CStrCuts(p.Package());
      hide CStr;
      RegisterPackageClosed(b0, p.Package(), file, None);
      RegisterFileClosed(b, p, file);
    }
  }

  // ---------- termination ----------

  /** The files of the fallback database that are neither loaded nor being loaded. A file counts as loaded when a file
      is there whose name has the same front part up to a NUL. */
  ghost function Unseen(keys: set<string>, files: map<string, Entry<Addr>>, pending: seq<string>): set<string> {
    set k | k in keys && CStr(k) !in files && k !in pending
  }

  lemma SubsetSize<T>(a: set<T>, b: set<T>)
    requires a <= b
    ensures |a| <= |b|
  {
    if a != b {
      var rest := b - a;
      assert b == a + rest;
    }
  }

  lemma SmallerRest<T>(all: set<T>, before: set<T>, after: set<T>, x: T)
    requires x in all && x !in before && before + {x} <= after
    ensures |all - after| < |all - before|
  {
    SubsetSize(all - after, (all - before) - {x});
  }

  /** Nothing that happens in between makes more files unseen. */
  lemma UnseenShrinks(keys: set<string>, s: Snapshot, s': Snapshot, strict: bool)
    requires Steps(s, s', strict)
    ensures |Unseen(keys, s'.now.files, s'.pending)| <= |Unseen(keys, s.now.files, s.pending)|
  {
    SubsetSize(Unseen(keys, s'.now.files, s'.pending), Unseen(keys, s.now.files, s.pending));
  }

  /** A file that starts loading is no longer unseen. */
  lemma StartLoading(keys: set<string>, files: map<string, Entry<Addr>>, pending: seq<string>, name: string)
    requires name in keys && CStr(name) !in files && name !in pending
    ensures |Unseen(keys, files, pending + [name])| < |Unseen(keys, files, pending)|
  {
    var u := Unseen(keys, files, pending);
    assert Unseen(keys, files, pending + [name]) == u - {name};
    assert name in u;
  }

  /** A file that is loaded stops being unseen. */
  lemma FinishLoading(keys: set<string>, files: map<string, Entry<Addr>>, files': map<string, Entry<Addr>>,
                      pending: seq<string>, name: string)
    requires files'.Keys == files.Keys + {CStr(name)}
    requires name in keys && CStr(name) !in files && name !in pending
    ensures |Unseen(keys, files', pending)| < |Unseen(keys, files, pending)|
  {
    var u, rest := Unseen(keys, files, pending), Unseen(keys, files', pending);
    assert name in u && rest <= u - {name};
    SubsetSize(rest, u - {name});
  }
}
