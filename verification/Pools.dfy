/** DescriptorPool and DescriptorBuilder: building files, with imports and unknown symbols loaded on demand from a
    fallback database. */
module Pools {
  import opened Wrappers
  import opened Names
  import opened Protos
  import opened Descriptors
  import opened SymbolTables
  import opened Declarations
  import opened Building
  import opened PoolState
  import opened Lookup
  import opened Uses
  import Imports
  import Oneofs

  /** A fallback database: which file has a name, and which file is said to contain a symbol (it may be wrong). */
  datatype Database = Database(files: map<string, FileProto>, symbolIndex: map<string, string>) {
    /** Every file is filed under its own name. */
    ghost predicate Keyed() {
      forall n :: n in files ==> files[n].name == n
    }

    function FindFileByName(name: string): Option<FileProto> {
      if name in files then Some(files[name]) else None
    }

    function FindFileContainingSymbol(name: string): Option<FileProto> {
      if name in symbolIndex && symbolIndex[name] in files then Some(files[symbolIndex[name]]) else None
    }
  }

  lemma NamedBySelf(fullName: string, name: string, relativeTo: string)
    requires !Absolute(Some(name)) && CStr(fullName) == CStr(name)
    ensures NamedBy(fullName, name, relativeTo)
  {
  }

  lemma NamedInScope(fullName: string, name: string, relativeTo: string, scope: string)
    requires !Absolute(Some(name)) && scope <= relativeTo && CStr(fullName) == CStr(scope + "." + name)
    ensures NamedBy(fullName, name, relativeTo)
  {
  }

  lemma InsideBoth(name: string, prefix: string, p: string)
    requires Inside(name, p) && (prefix == name || Inside(name, prefix)) && |p| < |prefix|
    ensures Inside(prefix, p) && |p| <= LastDot(prefix)
  {
  }

  lemma NamedAbsolutely(fullName: string, name: string, relativeTo: string)
    requires Absolute(Some(name)) && CStr(fullName) == CStr(name[1..])
    ensures NamedBy(fullName, name, relativeTo)
  {
  }

  /** DescriptorBuilder::IsInPackage, on the package of a file. */
  predicate InPackage(package: string, name: string) {
    name <= package && (|package| == |name| || package[|name|] == '.')
  }

  /** Whether a file may use a symbol: it is defined in the file or in its dependencies, or it is a package that
      one of these is in. */
  predicate Permitted(memory: map<Addr, FileDescriptor>, file: Addr, dependencies: set<Addr>, s: Symbol, name: string)
  {
    || s.file == file
    || s.file in dependencies
    || (s.kind == Package
        && ((file in memory && InPackage(memory[file].package, name))
            || exists d :: d in dependencies && d in memory && InPackage(memory[d].package, name)))
  }

  /** What may be used still may be when files are added. */
  lemma PermittedLater(m: map<Addr, FileDescriptor>, m': map<Addr, FileDescriptor>, file: Addr, dependencies: set<Addr>,
                       s: Symbol, name: string)
    requires Permitted(m, file, dependencies, s, name) && Extends(m, m')
    ensures Permitted(m', file, dependencies, s, name)
  {
  }

  /** What FindSymbol answers when nothing has to be loaded. */
  ghost function Visible(c: Contents, file: Addr, dependencies: set<Addr>, enforce: bool, name: string): Option<Symbol>
  {
    var key := CStr(name);
    if key in c.symbols && (enforce ==> Permitted(c.memory, file, dependencies, c.symbols[key].value, name))
    then Some(c.symbols[key].value) else None
  }

  /** A name with a NUL finds what its front part finds, except that a package is found by the whole name. */
  lemma CutNameFinds(c: Contents, file: Addr, dependencies: set<Addr>, enforce: bool, name: string)
    requires CStr(name) in c.symbols ==> c.symbols[CStr(name)].value.kind != Package
    ensures Visible(c, file, dependencies, enforce, name) == Visible(c, file, dependencies, enforce, CStr(name))
  {
    CStrCuts(name);
    CStrCuts(CStr(name));
    hide CStr;
  }

  /** ExistingFileMatchesProto for the file that has the name of a proto. */
  ghost predicate AlreadyThere(c: Contents, proto: FileProto) {
    && CStr(proto.name) in c.files && c.files[CStr(proto.name)].value in c.memory
    && CopyFile(c.memory[c.files[CStr(proto.name)].value], c.memory) == proto
  }

  class DescriptorPool {
    const tables: Tables
    const database: Option<Database>
    const enforceDependencies: bool

    constructor (database: Option<Database>)
      requires database.Some? ==> database.value.Keyed()
      ensures Valid() && fresh(tables) && this.database == database && enforceDependencies
      ensures Idle()
    {
      this.tables := new Tables();
      this.database := database;
      this.enforceDependencies := true;
    }

    ghost predicate Valid()
      reads tables
    {
      tables.Valid() && (database.Some? ==> database.value.Keyed())
    }

    /** How many files of the database may still be loaded. */
    ghost function Work(): nat
      reads tables
    {
      if database.None? then 0
      else |Unseen(database.value.files.Keys, tables.filesByName, tables.pendingFiles)|
    }

    ghost predicate Ready(budget: nat, clean: bool)
      reads tables
    {
      Valid() && Work() <= budget && (clean ==> Good(tables.Now()))
    }

    lemma StillReady(s: Snapshot, budget: nat, clean: bool)
      requires Valid() && Steps(s, Snap(tables), enforceDependencies)
      requires database.Some? ==> |Unseen(database.value.files.Keys, s.now.files, s.pending)| <= budget
      requires clean ==> Good(tables.Now())
      ensures Ready(budget, clean)
    {
      if database.Some? {
        UnseenShrinks(database.value.files.Keys, s, Snap(tables), enforceDependencies);
      }
    }

    // ---------- names that failed to load ----------

    method ForgetFailures()
      requires Idle()
      modifies tables
      ensures Idle() && Snap(tables) == old(Snap(tables))
      ensures tables.knownBadFiles == {} && tables.knownBadSymbols == {}
    {
      tables.knownBadSymbols := {};
      tables.knownBadFiles := {};
    }

    method RememberBadFile(name: string, ghost budget: nat, ghost clean: bool)
      requires Ready(budget, clean)
      modifies tables
      ensures Ready(budget, clean) && Snap(tables) == old(Snap(tables))
      ensures tables.knownBadFiles == old(tables.knownBadFiles) + {name}
    {
      tables.knownBadFiles := tables.knownBadFiles + {name};
    }

    method RememberBadSymbol(name: string, ghost budget: nat, ghost clean: bool)
      requires Ready(budget, clean)
      modifies tables
      ensures Ready(budget, clean) && Snap(tables) == old(Snap(tables))
      ensures tables.knownBadSymbols == old(tables.knownBadSymbols) + {name}
    {
      tables.knownBadSymbols := tables.knownBadSymbols + {name};
    }

    // ---------- the fallback database ----------

    method TryFindFileInFallbackDatabase(name: string, ghost budget: nat, ghost clean: bool) returns (found: bool)
      requires Ready(budget, clean) && CStr(name) !in tables.filesByName
      modifies tables
      ensures Ready(budget, clean) && Steps(old(Snap(tables)), Snap(tables), enforceDependencies)
      ensures found ==> CStr(name) in tables.filesByName
      ensures !found && database.Some? ==> name in tables.knownBadFiles
      decreases budget, 11
    {
      hide Consistent, Good, Grows, Tables.Valid;
      StepsRefl(Snap(tables), enforceDependencies);
      if database.None? || name in tables.knownBadFiles {
        return false;
      }
      var proto := database.value.FindFileByName(name);
      found := false;
      if proto.Some? {
        var file := BuildFileFromDatabase(proto.value, budget, clean);
        found := file.Some?;
      }
      if !found {
        RememberBadFile(name, budget, clean);
      }
    }

    /** Whether some enclosing name is defined as something else than a package. */
    method IsSubSymbolOfBuiltType(name: string) returns (below: bool)
      ensures below <==> exists p :: Inside(name, p) && CStr(p) in tables.symbolsByName
                                     && tables.symbolsByName[CStr(p)].value.kind != Package
    {
      hide CStr;
      var prefix := name;
      while true
        invariant prefix == name || Inside(name, prefix)
        invariant forall p :: Inside(name, p) && CStr(p) in tables.symbolsByName && |p| >= |prefix| ==>
                    tables.symbolsByName[CStr(p)].value.kind == Package
        decreases |prefix|
      {
        var dot := LastDot(prefix);
        forall p | Inside(name, p) && |p| < |prefix| ensures |p| <= dot {
          InsideBoth(name, prefix, p);
        }
        if dot < 0 {
          assert forall p :: Inside(name, p) ==> |p| >= |prefix|;
          return false;
        }
        prefix := prefix[..dot];
        assert Inside(name, prefix);
        forall p | Inside(name, p) && |p| == |prefix| ensures p == prefix {
          assert p == name[..|p|];
        }
        var symbol := tables.FindSymbol(prefix);
        if symbol.Some? && symbol.value.kind != Package {
          return true;
        }
      }
    }

    method TryFindSymbolInFallbackDatabase(name: string, ghost budget: nat, ghost clean: bool) returns (found: bool)
      requires Ready(budget, clean)
      modifies tables
      ensures Ready(budget, clean) && Steps(old(Snap(tables)), Snap(tables), enforceDependencies)
      ensures database.None? ==> !found && Snap(tables) == old(Snap(tables))
      ensures !found && database.Some? ==> name in tables.knownBadSymbols
      decreases budget, 11
    {
      hide Consistent, Good, Grows, Tables.Valid;
      StepsRefl(Snap(tables), enforceDependencies);
      if database.None? || name in tables.knownBadSymbols {
        return false;
      }
      found := false;
      var below := IsSubSymbolOfBuiltType(name);
      if !below {
        var proto := database.value.FindFileContainingSymbol(name);
        if proto.Some? && tables.FindFile(proto.value.name).None? {
          var file := BuildFileFromDatabase(proto.value, budget, clean);
          found := file.Some?;
        }
      }
      if !found {
        RememberBadSymbol(name, budget, clean);
      }
    }

    method BuildFileFromDatabase(proto: FileProto, ghost budget: nat, ghost clean: bool) returns (file: Option<Addr>)
      requires Ready(budget, clean) && database.Some?
      requires proto.name in database.value.files && proto == database.value.files[proto.name]
      requires CStr(proto.name) !in tables.filesByName
      modifies tables
      ensures Ready(budget, clean) && Steps(old(Snap(tables)), Snap(tables), enforceDependencies)
      ensures file.Some? ==> tables.FindFile(proto.name) == file
      ensures file.None? ==> proto.name in tables.knownBadFiles
      decreases budget, 10
    {
      hide Consistent, Good, Grows, DescriptorBuilder.Built, Tables.Valid;
      StepsRefl(Snap(tables), enforceDependencies);
      if proto.name in tables.knownBadFiles {
        return None;
      }
      var builder := new DescriptorBuilder(this);
      ghost var base: Contents;
      file, base := builder.BuildFile(proto, budget, clean);
      builder.BuiltSteps(old(Snap(tables)), base, proto, file, clean);
      if file.None? {
        RememberBadFile(proto.name, budget, clean);
      }
    }

    // ---------- the public operations ----------

    /** Between two public operations nothing is pending, the pool is good, and all files in it are linked. */
    ghost predicate Idle()
      reads tables
    {
      Valid() && tables.checkpoints == [] && tables.pendingFiles == [] && Good(tables.Now())
      && AllLinked(tables.Now(), enforceDependencies)
    }

    /** Between its first and its last step a public operation only builds files. */
    lemma StaysIdle(s: Snapshot)
      requires Valid() && Good(tables.Now()) && Steps(s, Snap(tables), enforceDependencies)
      requires s.checkpoints == [] && s.pending == [] && AllLinked(s.now, enforceDependencies)
      ensures Idle() && Grows(s.now, tables.Now(), enforceDependencies)
    {
      hide Consistent, Good, Grows, AllLinked, Tables.Valid;
      AllLinkedGrows(s.now, tables.Now(), enforceDependencies);
    }

    /** DescriptorPool::BuildFile, for pools without a fallback database. A failed build changes nothing; a build of
        a file in canonical form can be copied back if and only if no name of a type holds a NUL and every import is
        written as the name of the file that is found for it. */
    method BuildFile(proto: FileProto) returns (file: Option<Addr>)
      requires Idle() && database.None?
      modifies tables
      ensures Idle() && Grows(old(tables.Now()), tables.Now(), enforceDependencies)
      ensures file.None? ==> tables.Now() == old(tables.Now())
      ensures file.Some? ==> tables.FindFile(proto.name) == file && file.value in tables.memory
      ensures file.Some? && CanonicalForm(proto) ==>
                (CopyFile(tables.memory[file.value], tables.memory) == proto
                 <==> Spelled(proto) && ImportsSpelled(old(tables.Now()), proto))
      ensures file.Some? && old(tables.FindFile(proto.name)).None? ==>
                Declares(tables.symbolsByName, proto, file.value)
      ensures AlreadyThere(old(tables.Now()), proto) ==>
                file == old(tables.FindFile(proto.name)) && tables.Now() == old(tables.Now())
      ensures old(tables.FindFile(proto.name)).Some? && !AlreadyThere(old(tables.Now()), proto) ==> file.None?
    {
      hide Consistent, Good, Grows, AllLinked, Tables.Valid, Steps, DescriptorBuilder.Built, Declares, CopyFile,
           CanonicalForm, Spelled, ImportsSpelled, CStr;
      ForgetFailures();
      ghost var s := Snap(tables);
      var builder := new DescriptorBuilder(this);
      ghost var base: Contents;
      file, base := builder.BuildFile(proto, 1, true);
      builder.BuiltResult(s, base, proto, file, true);
      StaysIdle(s);
      if file.Some? && CopyFile(tables.memory[file.value], tables.memory) == proto {
        SpelledBack(s.now, proto, file.value);
      }
    }

    /** Whatever CopyTo gives back was written as it was found. */
    lemma SpelledBack(before: Contents, proto: FileProto, file: Addr)
      requires Idle() && Grows(before, tables.Now(), enforceDependencies) && Good(before)
      requires tables.FindFile(proto.name) == Some(file) && file in tables.memory
      requires CopyFile(tables.memory[file], tables.memory) == proto
      ensures Spelled(proto) && ImportsSpelled(before, proto)
    {
      var c := tables.Now();
      hide CopyFile, CStr, Spelled, ImportsSpelled, Linked, FileUses, NewLinked;
      assert c.files[CStr(proto.name)].value == file;
      assert Linked(c, file, enforceDependencies);
      forall u | FileUses(c.memory[file], u) ensures UseSpelled(u) {
        LinkedSpelled(c, file, enforceDependencies, u);
      }
      FileSpelledBack(c.memory[file], c.memory);
      ImportsSpelledBack(before, c, file, proto);
    }

    method FindFileByName(name: string) returns (file: Option<Addr>)
      requires Idle()
      modifies tables
      ensures Idle() && Grows(old(tables.Now()), tables.Now(), enforceDependencies)
      ensures file == tables.FindFile(name) || file.None?
      ensures old(tables.FindFile(name)).Some? ==> file.Some? && tables.Now() == old(tables.Now())
    {
      hide Consistent, Good, Tables.Valid;
      GrowsRefl(tables.Now(), enforceDependencies);
      ForgetFailures();
      file := tables.FindFile(name);
      if file.None? {
        hide Grows, AllLinked, Steps;
        ghost var s := Snap(tables);
        var found := TryFindFileInFallbackDatabase(name, Work(), true);
        StaysIdle(s);
        if found {
          file := tables.FindFile(name);
        }
      }
    }

    /** FindByNameHelper, the body of all Find...ByName operations on symbols. */
    method FindByName(name: string) returns (symbol: Option<Symbol>)
      requires Idle()
      modifies tables
      ensures Idle() && Grows(old(tables.Now()), tables.Now(), enforceDependencies)
      ensures symbol.Some? ==> symbol == tables.FindSymbol(name)
      ensures old(tables.FindSymbol(name)).Some? ==> symbol.Some? && tables.Now() == old(tables.Now())
    {
      hide Consistent, Good, Tables.Valid;
      GrowsRefl(tables.Now(), enforceDependencies);
      ForgetFailures();
      symbol := tables.FindSymbol(name);
      if symbol.None? {
        hide Grows, AllLinked, Steps;
        ghost var s := Snap(tables);
        var found := TryFindSymbolInFallbackDatabase(name, Work(), true);
        StaysIdle(s);
        if found {
          symbol := tables.FindSymbol(name);
        }
      }
    }

    /** Any run of public operations leaves the pool good: nothing is pending, every import of a loaded file is
        loaded, the symbol table is closed unless a loaded file has a package with a NUL, and nothing that was there
        has changed. */
    method Serve(requests: seq<Request>)
      requires Idle()
      requires forall r :: r in requests && r.Build? ==> database.None?
      modifies tables
      ensures Idle() && Grows(old(tables.Now()), tables.Now(), enforceDependencies)
    {
      hide Grows, Valid, Good, AllLinked;
      GrowsRefl(tables.Now(), enforceDependencies);
      var i := 0;
      while i < |requests|
        invariant 0 <= i <= |requests|
        invariant Idle() && Grows(old(tables.Now()), tables.Now(), enforceDependencies)
      {
        ghost var before := tables.Now();
        assert requests[i] in requests;
        match requests[i] {
          case Build(proto) => var _ := BuildFile(proto);
          case ByFile(name) => var _ := FindFileByName(name);
          case BySymbol(name) => var _ := FindByName(name);
        }
        GrowsTrans(old(tables.Now()), before, tables.Now(), enforceDependencies);
        i := i + 1;
      }
    }

    /** Building a file in canonical form a second time changes nothing. It returns the same descriptor if and only
        if the file was written as it is found; otherwise the file differs from what is there under its name, and it
        fails. */
    method BuildTwice(proto: FileProto) returns (first: Option<Addr>, second: Option<Addr>, ghost between: Contents)
      requires Idle() && database.None? && CanonicalForm(proto)
      modifies tables
      ensures Idle()
      ensures first.Some? ==>
                && tables.Now() == between
                && second == if Spelled(proto) && ImportsSpelled(old(tables.Now()), proto) then first else None
    {
      first := BuildFile(proto);
      between := tables.Now();
      hide Idle, Grows, CanonicalForm, Spelled, ImportsSpelled, Declares, CopyFile, CStr;
      second := BuildFile(proto);
    }
  }

  /** A public operation. */
  datatype Request = Build(proto: FileProto) | ByFile(file: string) | BySymbol(symbol: string)

  class DescriptorBuilder {
    const pool: DescriptorPool
    const tables: Tables
    var hadErrors: bool
    var file: Addr
    var dependencies: set<Addr>
    // The keys of fields_by_number_ in the tables of the file: message type and number.
    var fieldsByNumber: set<(Option<string>, int)>
    var possibleUndeclaredDependency: Option<Addr>
    var undefineResolvedName: string

    constructor (pool: DescriptorPool)
      ensures this.pool == pool && tables == pool.tables && !hadErrors
      ensures dependencies == {} && fieldsByNumber == {}
    {
      this.pool := pool;
      this.tables := pool.tables;
      hadErrors := false;
      file := 0;
      dependencies := {};
      fieldsByNumber := {};
      possibleUndeclaredDependency := None;
      undefineResolvedName := "";
    }

    // ================= converting children: registering declarations =================

    /** A file is open: its cell exists, and the builder works on the tables of its pool. */
    ghost predicate Open()
      reads `file, tables
    {
      tables == pool.tables && tables.Valid() && file in tables.memory
    }

    /** Allocates the names of a declaration, validates it and adds its symbol. */
    method Declare(e: Element, descriptor: Ptr)
      requires Open() && descriptor.block in tables.allocations
      modifies tables, this`hadErrors
      ensures Open() && old(tables.allocations) <= tables.allocations
      ensures Registers(old(Snap(tables)), Snap(tables), [e], file, old(hadErrors), hadErrors)
    {
      hide Consistent;
      var key := tables.AllocateString();
      var nameString := tables.AllocateString();
      if !e.ok {
        hadErrors := true;
      }
      ghost var before := tables.symbolsByName;
      var symbol := Symbol(e.kind, e.fullName, descriptor, file, e.facts);
      var added := tables.AddSymbol(e.fullName, key, symbol);
      if !added {
        hadErrors := true;
      }
      ViewInsert(before, CStr(e.fullName), Entry(key, symbol));
      ghost var b := Book(View(before), old(hadErrors));
      assert RegisterAll(b, [e], file) == Register(b, e, file) by {
        assert [e][..0] == [];
      }
    }

    /** AllocateArray, as the first part of BUILD_ARRAY. */
    method NewArray(count: nat) returns (block: Addr)
      requires Open()
      modifies tables
      ensures Open() && old(tables.allocations) <= tables.allocations
      ensures Registers(old(Snap(tables)), Snap(tables), [], file, hadErrors, hadErrors)
      ensures count > 0 ==> block in tables.allocations
    {
      block := tables.AllocateArray(count);
    }

    lemma Continue(s: Snapshot, failed: bool, es: seq<Element>, s': Snapshot, failed': bool, fs: seq<Element>)
      requires Registers(s, s', es, file, failed, failed') && Registers(s', Snap(tables), fs, file, failed', hadErrors)
      ensures Registers(s, Snap(tables), es + fs, file, failed, hadErrors)
    {
      RegistersConcat(s, s', Snap(tables), es, fs, file, failed, failed', hadErrors);
    }

    method BuildFields(fs: seq<FieldProto>, scope: string, isExtension: bool, oneofCount: nat)
      returns (ds: seq<FieldDescriptor>)
      requires Open()
      modifies tables, this`hadErrors
      ensures Open() && old(tables.allocations) <= tables.allocations
      ensures Registers(old(Snap(tables)), Snap(tables), FieldElements(fs, scope, isExtension, oneofCount), file,
                        old(hadErrors), hadErrors)
      ensures FieldsBuilt(ds, fs, scope, isExtension, oneofCount, tables.allocations)
    {
      hide Open, Registers, Snap;
      var block := NewArray(|fs|);
      ds := [];
      assert FieldElements(fs[..0], scope, isExtension, oneofCount) == [];
      hide FieldElements, FieldElement, InitialField;
      var i := 0;
      while i < |fs|
        invariant 0 <= i <= |fs|
        invariant Registers(old(Snap(tables)), Snap(tables), FieldElements(fs[..i], scope, isExtension, oneofCount),
                            file, old(hadErrors), hadErrors)
        invariant Open() && old(tables.allocations) <= tables.allocations
        invariant block in tables.allocations || |fs| == 0
        invariant FieldsBuilt(ds, fs[..i], scope, isExtension, oneofCount, tables.allocations)
      {
        ghost var s, failed := Snap(tables), hadErrors;
        var d := InitialField(fs[i], Ptr(block, i), scope, isExtension, oneofCount);
        var e := FieldElement(fs[i], scope, isExtension, oneofCount);
        Declare(e, d.self);
        ds := ds + [d];
        Continue(old(Snap(tables)), old(hadErrors), FieldElements(fs[..i], scope, isExtension, oneofCount), s, failed,
                 [e]);
        FieldElementsNext(fs, i, scope, isExtension, oneofCount);
        i := i + 1;
      }
      assert fs[..i] == fs;
    }

    method BuildOneofs(names: seq<string>, parent: string) returns (ds: seq<OneofDescriptor>)
      requires Open()
      modifies tables, this`hadErrors
      ensures Open() && old(tables.allocations) <= tables.allocations
      ensures Registers(old(Snap(tables)), Snap(tables), OneofElements(names, parent), file, old(hadErrors), hadErrors)
      ensures ds == OneofsOf(names, parent)
    {
      hide Open, Registers, Snap;
      var block := NewArray(|names|);
      ds := [];
      assert OneofElements(names[..0], parent) == [];
      hide OneofElements, OneofElement;
      var i := 0;
      while i < |names|
        invariant 0 <= i <= |names|
        invariant Registers(old(Snap(tables)), Snap(tables), OneofElements(names[..i], parent), file, old(hadErrors),
                            hadErrors)
        invariant Open() && old(tables.allocations) <= tables.allocations
        invariant block in tables.allocations || |names| == 0
        invariant ds == OneofsOf(names[..i], parent)
      {
        ghost var s, failed := Snap(tables), hadErrors;
        Declare(OneofElement(names[i], parent), Ptr(block, i));
        ds := ds + [OneofDescriptor(names[i], parent + "." + names[i], 0, [])];
        Continue(old(Snap(tables)), old(hadErrors), OneofElements(names[..i], parent), s, failed,
                 [OneofElement(names[i], parent)]);
        OneofElementsNext(names, i, parent);
        i := i + 1;
      }
      assert names[..i] == names;
    }

    method BuildEnumValues(vs: seq<EnumValueProto>, scope: string, enumName: string)
      returns (ds: seq<EnumValueDescriptor>)
      requires Open()
      modifies tables, this`hadErrors
      ensures Open() && old(tables.allocations) <= tables.allocations
      ensures Registers(old(Snap(tables)), Snap(tables), ValueElements(vs, scope, enumName), file, old(hadErrors),
                        hadErrors)
      ensures |ds| == |vs| && forall i :: 0 <= i < |vs| ==> ds[i] == EnumValueOf(vs[i], scope)
    {
      hide Open, Registers, Snap;
      var block := NewArray(|vs|);
      ds := [];
      assert ValueElements(vs[..0], scope, enumName) == [];
      hide ValueElements, ValueElement, EnumValueOf;
      var i := 0;
      while i < |vs|
        invariant 0 <= i <= |vs| && |ds| == i
        invariant Registers(old(Snap(tables)), Snap(tables), ValueElements(vs[..i], scope, enumName), file,
                            old(hadErrors), hadErrors)
        invariant Open() && old(tables.allocations) <= tables.allocations
        invariant block in tables.allocations || |vs| == 0
        invariant forall j :: 0 <= j < i ==> ds[j] == EnumValueOf(vs[j], scope)
      {
        ghost var s, failed := Snap(tables), hadErrors;
        Declare(ValueElement(vs[i], scope, enumName), Ptr(block, i));
        ds := ds + [EnumValueOf(vs[i], scope)];
        Continue(old(Snap(tables)), old(hadErrors), ValueElements(vs[..i], scope, enumName), s, failed,
                 [ValueElement(vs[i], scope, enumName)]);
        ValueElementsNext(vs, i, scope, enumName);
        i := i + 1;
      }
      assert vs[..i] == vs;
    }

    method BuildEnum(e: EnumProto, scope: string, self: Ptr) returns (d: EnumDescriptor)
      requires Open() && self.block in tables.allocations
      modifies tables, this`hadErrors
      ensures Open() && old(tables.allocations) <= tables.allocations
      ensures Registers(old(Snap(tables)), Snap(tables), EnumElements(e, scope), file, old(hadErrors), hadErrors)
      ensures d == EnumOf(e, scope)
    {
      hide Open, Registers, Snap;
      var fullName := Qualify(scope, e.name);
      var values := BuildEnumValues(e.values, scope, fullName);
      d := EnumDescriptor(e.name, fullName, values);
      assert d.values == EnumOf(e, scope).values;
      ghost var s, failed := Snap(tables), hadErrors;
      var element := Element(fullName, e.name, Enum, EnumFactsOf(e), EnumOk(e));
      Declare(element, self);
      Continue(old(Snap(tables)), old(hadErrors), ValueElements(e.values, scope, fullName), s, failed, [element]);
    }

    method BuildEnums(es: seq<EnumProto>, scope: string) returns (ds: seq<EnumDescriptor>)
      requires Open()
      modifies tables, this`hadErrors
      ensures Open() && old(tables.allocations) <= tables.allocations
      ensures Registers(old(Snap(tables)), Snap(tables), AllEnumElements(es, scope), file, old(hadErrors), hadErrors)
      ensures ds == EnumsOf(es, scope)
    {
      hide Open, Registers, Snap, AllEnumElements, EnumElements, EnumOf;
      assert AllEnumElements(es[..0], scope) == [] by { NoElements(scope); }
      var block := NewArray(|es|);
      ds := [];
      var i := 0;
      while i < |es|
        invariant 0 <= i <= |es|
        invariant Registers(old(Snap(tables)), Snap(tables), AllEnumElements(es[..i], scope), file, old(hadErrors),
                            hadErrors)
        invariant Open() && old(tables.allocations) <= tables.allocations
        invariant block in tables.allocations || |es| == 0
        invariant ds == EnumsOf(es[..i], scope)
      {
        ghost var s, failed := Snap(tables), hadErrors;
        var d := BuildEnum(es[i], scope, Ptr(block, i));
        ds := ds + [d];
        Continue(old(Snap(tables)), old(hadErrors), AllEnumElements(es[..i], scope), s, failed,
                 EnumElements(es[i], scope));
        EnumElementsNext(es, i, scope);
        i := i + 1;
      }
      assert es[..i] == es;
    }

    method BuildMessage(m: MessageProto, scope: string, self: Ptr) returns (d: MessageDescriptor)
      requires Open() && self.block in tables.allocations
      modifies tables, this`hadErrors
      ensures Open() && old(tables.allocations) <= tables.allocations
      ensures Registers(old(Snap(tables)), Snap(tables), MessageElements(m, scope), file, old(hadErrors), hadErrors)
      ensures MessageBuilt(d, m, scope, tables.allocations)
      decreases m, 1
    {
      hide Open, Registers, Snap, MessageBuilt, FieldsBuilt, AllMessageElements, AllEnumElements;
      ghost var s0, failed0 := Snap(tables), hadErrors;
      var fullName := Qualify(scope, m.name);
      var oneofs := BuildOneofs(m.oneofs, fullName);
      ghost var s1, failed1 := Snap(tables), hadErrors;
      var fields := BuildFields(m.fields, fullName, false, |m.oneofs|);
      ghost var a := tables.allocations;
      Continue(s0, failed0, OneofElements(m.oneofs, fullName), s1, failed1,
               FieldElements(m.fields, fullName, false, |m.oneofs|));
      ghost var s2, failed2, es2 := Snap(tables), hadErrors,
        OneofElements(m.oneofs, fullName) + FieldElements(m.fields, fullName, false, |m.oneofs|);
      var nested := BuildMessages(m.nested, fullName);
      ghost var b := tables.allocations;
      Continue(s0, failed0, es2, s2, failed2, AllMessageElements(m.nested, fullName));
      ghost var s3, failed3, es3 := Snap(tables), hadErrors, es2 + AllMessageElements(m.nested, fullName);
      var enums := BuildEnums(m.enums, fullName);
      Continue(s0, failed0, es3, s3, failed3, AllEnumElements(m.enums, fullName));
      ghost var s4, failed4, es4 := Snap(tables), hadErrors, es3 + AllEnumElements(m.enums, fullName);
      var extensions := BuildFields(m.extensions, fullName, true, 0);
      ghost var c := tables.allocations;
      Continue(s0, failed0, es4, s4, failed4, FieldElements(m.extensions, fullName, true, 0));
      ghost var s5, failed5, es5 := Snap(tables), hadErrors, es4 + FieldElements(m.extensions, fullName, true, 0);
      var element := Element(fullName, m.name, Message, MessageFacts(m.ranges), MessageOk(m));
      Declare(element, self);
      Continue(s0, failed0, es5, s5, failed5, [element]);
      d := MessageDescriptor(m.name, fullName, oneofs, fields, nested, enums, m.ranges, extensions);
      MessageAssembled(m, scope, fields, nested, extensions, a, b, c);
      MessageBuiltLater(d, m, scope, c, tables.allocations);
    }

    method BuildMessages(ms: seq<MessageProto>, scope: string) returns (ds: seq<MessageDescriptor>)
      requires Open()
      modifies tables, this`hadErrors
      ensures Open() && old(tables.allocations) <= tables.allocations
      ensures Registers(old(Snap(tables)), Snap(tables), AllMessageElements(ms, scope), file, old(hadErrors), hadErrors)
      ensures MessagesBuilt(ds, ms, scope, tables.allocations)
      decreases ms, 0
    {
      hide Open, Registers, Snap, AllMessageElements, MessageElements, MessageBuilt;
      assert AllMessageElements(ms[..0], scope) == [] by { NoElements(scope); }
      var block := NewArray(|ms|);
      ds := [];
      var i := 0;
      while i < |ms|
        invariant 0 <= i <= |ms|
        invariant Registers(old(Snap(tables)), Snap(tables), AllMessageElements(ms[..i], scope), file, old(hadErrors),
                            hadErrors)
        invariant Open() && old(tables.allocations) <= tables.allocations
        invariant block in tables.allocations || |ms| == 0
        invariant MessagesBuilt(ds, ms[..i], scope, tables.allocations)
      {
        ghost var s, failed, blocks := Snap(tables), hadErrors, tables.allocations;
        var d := BuildMessage(ms[i], scope, Ptr(block, i));
        MessagesBuiltLater(ds, ms[..i], scope, blocks, tables.allocations);
        ds := ds + [d];
        Continue(old(Snap(tables)), old(hadErrors), AllMessageElements(ms[..i], scope), s, failed,
                 MessageElements(ms[i], scope));
        MessageElementsNext(ms, i, scope);
        i := i + 1;
      }
      assert ms[..i] == ms;
    }

    method BuildService(s: ServiceProto, scope: string, self: Ptr) returns (d: ServiceDescriptor)
      requires Open() && self.block in tables.allocations
      modifies tables, this`hadErrors
      ensures Open() && old(tables.allocations) <= tables.allocations
      ensures Registers(old(Snap(tables)), Snap(tables), ServiceElements(s, scope), file, old(hadErrors), hadErrors)
      ensures d == ServiceOf(s, scope)
    {
      hide Open, Registers, Snap;
      var fullName := Qualify(scope, s.name);
      var block := NewArray(|s.methods|);
      var methods: seq<MethodDescriptor> := [];
      ghost var es := seq(|s.methods|, i requires 0 <= i < |s.methods| => MethodElement(s.methods[i], fullName));
      var i := 0;
      while i < |s.methods|
        invariant 0 <= i <= |s.methods| && |methods| == i
        invariant Registers(old(Snap(tables)), Snap(tables), es[..i], file, old(hadErrors), hadErrors)
        invariant Open() && old(tables.allocations) <= tables.allocations
        invariant block in tables.allocations || |s.methods| == 0
        invariant self.block in tables.allocations
        invariant forall j :: 0 <= j < i ==> methods[j] == MethodOf(s.methods[j], fullName)
      {
        ghost var before, failed := Snap(tables), hadErrors;
        Declare(MethodElement(s.methods[i], fullName), Ptr(block, i));
        methods := methods + [MethodOf(s.methods[i], fullName)];
        Continue(old(Snap(tables)), old(hadErrors), es[..i], before, failed, [MethodElement(s.methods[i], fullName)]);
        assert es[..i + 1] == es[..i] + [MethodElement(s.methods[i], fullName)];
        i := i + 1;
      }
      assert es[..i] == es;
      ghost var before, failed := Snap(tables), hadErrors;
      var element := Element(fullName, s.name, Service, NoFacts, ValidName(s.name));
      Declare(element, self);
      Continue(old(Snap(tables)), old(hadErrors), es, before, failed, [element]);
      d := ServiceDescriptor(s.name, fullName, methods);
      assert d.methods == ServiceOf(s, scope).methods;
    }

    method BuildServices(ss: seq<ServiceProto>, scope: string) returns (ds: seq<ServiceDescriptor>)
      requires Open()
      modifies tables, this`hadErrors
      ensures Open() && old(tables.allocations) <= tables.allocations
      ensures Registers(old(Snap(tables)), Snap(tables), AllServiceElements(ss, scope), file, old(hadErrors), hadErrors)
      ensures ds == ServicesOf(ss, scope)
    {
      hide Open, Registers, Snap, AllServiceElements, ServiceElements, ServiceOf;
      assert AllServiceElements(ss[..0], scope) == [] by { NoElements(scope); }
      var block := NewArray(|ss|);
      ds := [];
      var i := 0;
      while i < |ss|
        invariant 0 <= i <= |ss|
        invariant Registers(old(Snap(tables)), Snap(tables), AllServiceElements(ss[..i], scope), file, old(hadErrors),
                            hadErrors)
        invariant Open() && old(tables.allocations) <= tables.allocations
        invariant block in tables.allocations || |ss| == 0
        invariant ds == ServicesOf(ss[..i], scope)
      {
        ghost var s, failed := Snap(tables), hadErrors;
        var d := BuildService(ss[i], scope, Ptr(block, i));
        ds := ds + [d];
        Continue(old(Snap(tables)), old(hadErrors), AllServiceElements(ss[..i], scope), s, failed,
                 ServiceElements(ss[i], scope));
        ServiceElementsNext(ss, i, scope);
        i := i + 1;
      }
      assert ss[..i] == ss;
    }

    lemma OwnCell()
      requires Open()
      ensures file in tables.allocations
    {
    }

    method AddPackageSymbol(name: string, key: Addr) returns (added: bool)
      requires Open() && key in tables.strings
      modifies tables
      ensures Open() && Adds(old(Snap(tables)), Snap(tables))
      ensures added == (CStr(name) !in old(tables.symbolsByName))
      ensures View(tables.symbolsByName)
           == if added then View(old(tables.symbolsByName))[CStr(name) := Info(Package, name, file, NoFacts)]
              else View(old(tables.symbolsByName))
      ensures !added ==> tables.symbolsByName == old(tables.symbolsByName)
    {
      OwnCell();
      hide Consistent;
      var symbol := Symbol(Package, name, Ptr(file, 0), file, NoFacts);
      ViewInsert(tables.symbolsByName, CStr(name), Entry(key, symbol));
      added := tables.AddSymbol(name, key, symbol);
    }

    method NewString() returns (a: Addr)
      requires Open()
      modifies tables
      ensures Open() && Adds(old(Snap(tables)), Snap(tables))
      ensures a in tables.strings && tables.symbolsByName == old(tables.symbolsByName)
    {
      hide Consistent;
      a := tables.AllocateString();
    }

    /** Registers a package and its parents, stopping at the first name that is already a package. */
    method AddPackage(name: string, key: Addr)
      requires Open() && key in tables.strings
      modifies tables, this`hadErrors
      ensures Open() && Adds(old(Snap(tables)), Snap(tables))
      ensures Book(View(tables.symbolsByName), hadErrors)
           == RegisterPackage(Book(View(old(tables.symbolsByName)), old(hadErrors)), name, file)
      decreases |name|
    {
      hide Open, Adds, Snap;
      ghost var s0 := Snap(tables);
      var added := AddPackageSymbol(name, key);
      ghost var s1 := Snap(tables);
      if added {
        var dot := LastDot(name);
        if dot < 0 {
          if !ValidName(name) {
            hadErrors := true;
          }
        } else {
          var parent := NewString();
          ghost var s2 := Snap(tables);
          AddPackage(name[..dot], parent);
          AddsTrans(s0, s1, s2);
          AddsTrans(s0, s2, Snap(tables));
          if !ValidName(name[dot + 1..]) {
            hadErrors := true;
          }
        }
      } else if tables.FindSymbol(name).value.kind != Package {
        hadErrors := true;
      }
    }

    // ================= imports =================

    /** Adds a file and everything reachable from it by public imports; files already there stop the descent. */
    method RecordPublicDependencies(a: Option<Addr>)
      requires Imports.Complete(tables.memory)
      requires dependencies <= tables.memory.Keys && (a.Some? ==> a.value in tables.memory)
      modifies this`dependencies
      ensures Imports.Descended(tables.memory, old(dependencies), a, dependencies)
      decreases |tables.memory.Keys - dependencies|
    {
      if a.None? || a.value in dependencies {
        return;
      }
      var f := a.value;
      Imports.CompleteEdges(tables.memory, f);
      Imports.Descend(tables.memory, dependencies, f);
      hide Imports.Reachable, Imports.ClosedInto, Imports.PublicImports, Imports.Complete;
      dependencies := dependencies + {f};
      var imports := Imports.PublicImports(tables.memory, f);
      var i := 0;
      while i < |imports|
        invariant 0 <= i <= |imports|
        invariant Imports.Descending(tables.memory, old(dependencies), f, dependencies)
        invariant forall j :: 0 <= j < i && imports[j].Some? ==> imports[j].value in dependencies
      {
        ghost var before := dependencies;
        SmallerRest(tables.memory.Keys, old(dependencies), dependencies, f);
        RecordPublicDependencies(imports[i]);
        Imports.DescendMore(tables.memory, old(dependencies), f, before, imports[i], dependencies);
        i := i + 1;
      }
      Imports.DescendEnd(tables.memory, old(dependencies), f, dependencies);
    }

    // ================= finding symbols =================

    /** The builder is cross-linking. `start` is the state in which it began; files may have been built since. While
        neither this builder nor one that encloses it has reported an error, the pool is good. */
    ghost predicate Linking(start: Snapshot, budget: nat, clean: bool)
      reads `file, `dependencies, `hadErrors, tables
    {
      && tables == pool.tables && pool.Valid()
      && Steps(start, Snap(tables), pool.enforceDependencies)
      && file in start.now.memory && dependencies <= start.now.memory.Keys
      && (pool.database.Some? ==> |Unseen(pool.database.value.files.Keys, start.now.files, start.pending)| <= budget)
      && (clean && !hadErrors ==> Good(tables.Now()))
    }

    /** What this builder sees of the symbol table. */
    ghost function See(): Sight
      reads `file, `dependencies, tables
    {
      Sight(tables.symbolsByName, {file} + dependencies, pool.enforceDependencies)
    }

    /** An answer to a lookup: a symbol that is in the table, and that this builder may use. */
    ghost predicate Answer(r: Option<Symbol>)
      reads `file, `dependencies, tables
    {
      r.Some? ==>
        && r == tables.FindSymbol(r.value.fullName)
        && (pool.enforceDependencies && r.value.kind != Package ==> r.value.file in {file} + dependencies)
    }

    lemma AnswerKnown(r: Option<Symbol>)
      requires Answer(r) && r.Some? && r.value.kind != Package
      ensures Known(Use(Some(r.value.fullName), r.value.kind), See())
    {
    }

    lemma LinkingReady(start: Snapshot, budget: nat, clean: bool)
      requires Linking(start, budget, clean)
      ensures pool.Ready(budget, clean && !hadErrors)
      ensures file in tables.memory && dependencies <= tables.memory.Keys
    {
      pool.StillReady(start, budget, clean && !hadErrors);
    }

    /** The symbol table as this builder may see it. */
    ghost function Table(c: Contents): Lookup.Finder
      reads `file, `dependencies
    {
      var f, ds, enforce := file, dependencies, pool.enforceDependencies;
      (name: string) => Visible(c, f, ds, enforce, name)
    }

    /** Files that were built in between have taken nothing out of sight. */
    lemma TableGrown(s: Snapshot)
      requires Steps(s, Snap(tables), pool.enforceDependencies)
      requires file in s.now.memory && dependencies <= s.now.memory.Keys
      ensures Grown(Table(s.now), Table(tables.Now()))
    {
      StepsSymbols(s, Snap(tables), pool.enforceDependencies);
      StepsMemory(s, Snap(tables), pool.enforceDependencies);
      hide Steps;
      forall q | Table(s.now)(q).Some? ensures Table(tables.Now())(q) == Table(s.now)(q) {
        if pool.enforceDependencies {
          PermittedLater(s.now.memory, tables.memory, file, dependencies, s.now.symbols[CStr(q)].value, q);
        }
      }
    }

    method FindSymbolNotEnforcingDeps(name: string, ghost start: Snapshot, ghost budget: nat, ghost clean: bool)
      returns (r: Option<Symbol>)
      requires Linking(start, budget, clean)
      modifies tables
      ensures Linking(start, budget, clean)
      ensures r.Some? ==> r == tables.FindSymbol(name)
      ensures old(tables.FindSymbol(name)).Some? ==> r == old(tables.FindSymbol(name))
      ensures Widens(old(See()), See()) && Grown(Table(old(tables.Now())), Table(tables.Now()))
      ensures pool.database.None? ==> Snap(tables) == old(Snap(tables))
      decreases budget, 12
    {
      hide Grown, Table, Good, Consistent, Grows, Steps, Widens;
      r := tables.FindSymbol(name);
      GrownRefl(Table(tables.Now()));
      WidensRefl(See());
      if r.None? {
        LinkingReady(start, budget, clean);
        ghost var before := Snap(tables);
        var found := pool.TryFindSymbolInFallbackDatabase(name, budget, clean && !hadErrors);
        StillLinking(start, before, budget, clean);
        TableGrown(before);
        if found {
          r := tables.FindSymbol(name);
        }
      }
    }

    /** Building files in between keeps linking going. */
    lemma StillLinking(start: Snapshot, before: Snapshot, budget: nat, clean: bool)
      requires tables == pool.tables && pool.Ready(budget, clean && !hadErrors)
      requires Steps(start, before, pool.enforceDependencies) && Steps(before, Snap(tables), pool.enforceDependencies)
      requires file in start.now.memory && dependencies <= start.now.memory.Keys
      requires pool.database.Some? ==>
                 |Unseen(pool.database.value.files.Keys, start.now.files, start.pending)| <= budget
      ensures Linking(start, budget, clean)
      ensures Widens(Sight(before.now.symbols, {file} + dependencies, pool.enforceDependencies), See())
    {
      hide Steps, Consistent, Good, Grows;
      StepsTrans(start, before, Snap(tables), pool.enforceDependencies);
      StepsSymbols(before, Snap(tables), pool.enforceDependencies);
    }

    /** Finds a symbol of this file, of its imports or of what they import publicly; packages are also found when
        any of these files is in them. */
    method FindSymbol(name: string, ghost start: Snapshot, ghost budget: nat, ghost clean: bool)
      returns (r: Option<Symbol>)
      requires Linking(start, budget, clean)
      modifies tables, `possibleUndeclaredDependency
      ensures Linking(start, budget, clean)
      ensures Widens(old(See()), See()) && Answer(r) && (r.Some? ==> CStr(r.value.fullName) == CStr(name))
      ensures Grown(Table(old(tables.Now())), Table(tables.Now()))
      ensures Between(r, name, Table(old(tables.Now())), Table(tables.Now()))
      ensures pool.database.None? ==> Snap(tables) == old(Snap(tables))
      decreases budget, 13
    {
      hide Linking, Widens, Grown, CStr, InPackage;
      ghost var before, was := tables.Now(), tables.FindSymbol(name);
      r := FindSymbolNotEnforcingDeps(name, start, budget, clean);
      FullNames(start, budget, clean);
      if r.Some? && pool.enforceDependencies && !Permitted(tables.memory, file, dependencies, r.value, name) {
        possibleUndeclaredDependency := Some(r.value.file);
        r := None;
      }
      FoundBefore(before, name);
    }

    lemma FoundBefore(before: Contents, name: string)
      requires Grown(Table(before), Table(tables.Now()))
      ensures Table(before)(name).Some? ==> Table(tables.Now())(name) == Table(before)(name)
    {
    }

    /** Resolves a name from inside a scope: the scope is chopped in place, component by component. */
    method LookupSymbolNoPlaceholder(name: string, relativeTo: string, typesOnly: bool,
                                     ghost start: Snapshot, ghost budget: nat, ghost clean: bool)
      returns (r: Option<Symbol>)
      requires Linking(start, budget, clean)
      modifies tables, `possibleUndeclaredDependency, `undefineResolvedName
      ensures Linking(start, budget, clean)
      ensures Widens(old(See()), See()) && Answer(r) && (r.Some? ==> NamedBy(r.value.fullName, name, relativeTo))
      ensures pool.database.None? ==>
                Snap(tables) == old(Snap(tables))
                && r == if Absolute(Some(name)) then Table(tables.Now())(name[1..])
                        else Resolve(Table(tables.Now()), Split(relativeTo), name, typesOnly)
      ensures var before, after := Table(old(tables.Now())), Table(tables.Now());
              if Absolute(Some(name)) then Between(r, name[1..], before, after)
              else MayResolve(before, after, Split(relativeTo), name, typesOnly, r)
      decreases budget, 14, 2
    {
      hide Linking, Permitted, Widens, Grown, MayResolve, Resolve, Table, Between, Answer, NamedBy;
      possibleUndeclaredDependency := None;
      undefineResolvedName := "";
      if |name| > 0 && name[0] == '.' {
        r := FindSymbol(name[1..], start, budget, clean);
        if r.Some? {
          NamedAbsolutely(r.value.fullName, name, relativeTo);
        }
        BetweenSame(r, name[1..], Table(tables.Now()));
      } else {
        r := LookupInScopes(name, relativeTo, typesOnly, start, budget, clean);
        MayResolveSame(Table(tables.Now()), Split(relativeTo), name, typesOnly, r);
      }
    }

    /** The loop over the scopes. With a fallback database a lookup may load files, so that each answer is one that
        the table gives at some time between the beginning and the end. */
    method LookupInScopes(name: string, relativeTo: string, typesOnly: bool,
                          ghost start: Snapshot, ghost budget: nat, ghost clean: bool)
      returns (r: Option<Symbol>)
      requires Linking(start, budget, clean) && !Absolute(Some(name))
      modifies tables, `possibleUndeclaredDependency, `undefineResolvedName
      ensures Linking(start, budget, clean)
      ensures Widens(old(See()), See()) && Answer(r) && (r.Some? ==> NamedBy(r.value.fullName, name, relativeTo))
      ensures MayResolve(Table(old(tables.Now())), Table(tables.Now()), Split(relativeTo), name, typesOnly, r)
      ensures pool.database.None? ==> Snap(tables) == old(Snap(tables))
      decreases budget, 14, 1
    {
      hide Linking, Join, NamedBy, FirstPart, Components, Absolute, LastDot, Table, Answer, Widens, See, Grown, Between,
           MayPass, MayDecide, MayReach, MayResolve, ResolvesAt;
      WidensRefl(See());
      var firstPart := FirstPart(name);
      var scopeToTry := relativeTo;
      ghost var scopes, first := Split(relativeTo), Table(tables.Now());
      ghost var n := |scopes|;
      assert scopes[..n] == scopes;
      GrownRefl(first);
      NothingPassed(first, scopes, name, typesOnly);
      r := None;
      var done := false;
      while !done
        invariant scopeToTry <= relativeTo
        invariant 0 < n <= |scopes| && (!done ==> Components(scopes[..n]) && scopeToTry == Join(scopes[..n]))
        invariant Linking(start, budget, clean)
        invariant Widens(old(See()), See()) && Grown(first, Table(tables.Now()))
        invariant pool.database.None? ==> Snap(tables) == old(Snap(tables))
        invariant !done ==> MayReach(first, Table(tables.Now()), scopes, name, typesOnly, n)
        invariant done ==> Answer(r) && (r.Some? ==> NamedBy(r.value.fullName, name, relativeTo))
                           && MayResolve(first, Table(tables.Now()), scopes, name, typesOnly, r)
        decreases !done, n
      {
        ghost var see, before := See(), Table(tables.Now());
        JoinChop(scopes[..n]);
        var dot := LastDot(scopeToTry);
        if dot < 0 {
          r := FindSymbol(name, start, budget, clean);
          if r.Some? {
            NamedBySelf(r.value.fullName, name, relativeTo);
          }
          ResolvedAtRoot(first, before, Table(tables.Now()), scopes, n, name, typesOnly, r);
          done := true;
        } else {
          scopeToTry := scopeToTry[..dot];
          n := n - 1;
          assert scopes[..n + 1][..n] == scopes[..n];
          r, done := LookupInScope(name, firstPart, scopeToTry, relativeTo, typesOnly, start, budget, clean);
          ScopeTried(first, before, Table(tables.Now()), scopes, n, name, typesOnly, done, r);
        }
        WidensTrans(old(See()), see, See());
        GrownTrans(first, before, Table(tables.Now()));
      }
    }

    /** One turn of the lookup loop: the first part of the name in one scope and, when it is an aggregate there,
        the whole name. */
    method LookupInScope(name: string, firstPart: string, scope: string, ghost relativeTo: string, typesOnly: bool,
                         ghost start: Snapshot, ghost budget: nat, ghost clean: bool)
      returns (r: Option<Symbol>, done: bool)
      requires Linking(start, budget, clean) && !Absolute(Some(name)) && firstPart == FirstPart(name)
      requires scope <= relativeTo
      modifies tables, `possibleUndeclaredDependency, `undefineResolvedName
      ensures Linking(start, budget, clean)
      ensures Widens(old(See()), See()) && Grown(Table(old(tables.Now())), Table(tables.Now()))
      ensures done ==> Answer(r) && (r.Some? ==> NamedBy(r.value.fullName, name, relativeTo))
      ensures var before, after := Table(old(tables.Now())), Table(tables.Now());
              if done then MayDecide(before, after, scope, name, typesOnly, r)
              else MayPass(before, after, scope, name, typesOnly)
      ensures pool.database.None? ==> Snap(tables) == old(Snap(tables))
      decreases budget, 14, 0
    {
      hide Linking, Table, Answer, Widens, See, Grown, Between;
      var scopeToTry := scope + "." + firstPart;
      ghost var see, before := See(), Table(tables.Now());
      r := FindSymbol(scopeToTry, start, budget, clean);
      ghost var s, see', mid := r, See(), Table(tables.Now());
      done := false;
      if r.Some? {
        if |firstPart| < |name| {
          if r.value.IsAggregate() {
            scopeToTry := scopeToTry + name[|firstPart|..];
            assert scopeToTry == scope + "." + name;
            r := FindSymbol(scopeToTry, start, budget, clean);
            WidensTrans(see, see', See());
            TwoLookups(s, r, scope + "." + firstPart, scopeToTry, before, mid, Table(tables.Now()));
            if r.None? {
              undefineResolvedName := scopeToTry;
            } else {
              NamedInScope(r.value.fullName, name, relativeTo, scope);
            }
            done := true;
          }
        } else {
          assert firstPart == name;
          NamedInScope(r.value.fullName, name, relativeTo, scope);
          done := !typesOnly || r.value.IsType();
        }
      }
    }

    lemma FullNames(start: Snapshot, budget: nat, clean: bool)
      requires Linking(start, budget, clean)
      ensures forall k :: k in tables.symbolsByName ==> CStr(tables.symbolsByName[k].value.fullName) == k
    {
    }

    // ================= cross-linking =================

    /** Since the call began no error was forgotten, and the symbol table has only grown. */
    twostate predicate Later()
      reads `hadErrors, `file, `dependencies, tables
    {
      (old(hadErrors) ==> hadErrors) && Widens(old(See()), See())
    }

    /** While the pool is good, what is found for the name of a type is free of NULs. */
    lemma FoundWhole(r: Option<Symbol>, start: Snapshot, budget: nat, clean: bool)
      requires Linking(start, budget, clean) && clean && !hadErrors
      requires Answer(r) && r.Some? && r.value.kind != Package
      ensures NulFree(r.value.fullName)
    {
      var k := CStr(r.value.fullName);
      assert View(tables.symbolsByName)[k].fullName == k;
      CStrCuts(r.value.fullName);
    }

    /** Recording an error gives up the promise of a good pool. */
    method AddError(ghost start: Snapshot, ghost budget: nat, ghost clean: bool)
      requires Linking(start, budget, clean)
      modifies `hadErrors
      ensures Linking(start, budget, clean) && hadErrors
    {
      hadErrors := true;
    }

    /** Resolves the extendee of an extension; NULL after an error. */
    method LinkExtendee(d: FieldDescriptor, f: FieldProto, ghost start: Snapshot, ghost budget: nat, ghost clean: bool)
      returns (extendee: Option<Symbol>)
      requires Linking(start, budget, clean) && f.extendee.Some?
      modifies tables, `hadErrors, `possibleUndeclaredDependency, `undefineResolvedName
      ensures Linking(start, budget, clean) && Later()
      ensures extendee.None? ==> hadErrors
      ensures extendee.Some? ==> Answer(extendee) && Known(Use(Some(extendee.value.fullName), Message), See())
                                 && NamedBy(extendee.value.fullName, f.extendee.value, d.fullName)
                                 && (clean && !hadErrors ==> NulFree(extendee.value.fullName))
                                 && (!hadErrors ==> InRanges(extendee.value.facts, d.number))
      decreases budget, 15
    {
      hide Linking, Permitted, Known;
      extendee := LookupSymbolNoPlaceholder(f.extendee.value, d.fullName, false, start, budget, clean);
      if extendee.None? || extendee.value.kind != Message {
        AddError(start, budget, clean);
        extendee := None;
        return;
      }
      AnswerKnown(extendee);
      if clean && !hadErrors {
        FoundWhole(extendee, start, budget, clean);
      }
      if !InRanges(extendee.value.facts, d.number) {
        AddError(start, budget, clean);
      }
    }

    /** Resolves the type of a field; None after an error that ends the linking of the field. */
    method LinkType(d: FieldDescriptor, f: FieldProto, ghost start: Snapshot, ghost budget: nat, ghost clean: bool)
      returns (d': Option<FieldDescriptor>)
      requires Linking(start, budget, clean) && (d.hasDefault ==> f.defaultValue.Some?)
      requires d.fieldType == f.fieldType.GetOr(TypeDouble)
      modifies tables, `hadErrors, `possibleUndeclaredDependency, `undefineResolvedName
      ensures Linking(start, budget, clean) && Later()
      ensures d'.None? ==> hadErrors
      ensures d'.Some? ==> TypeLinked(d'.value, d, f, hadErrors || !clean)
      ensures d'.Some? && !hadErrors ==> AllKnown(TypeUses(d'.value), See())
      decreases budget, 16, 0
    {
      hide Linking, NamedBy, IsIdentifier, Answer, Known, Widens, See;
      ghost var see0 := See();
      WidensRefl(see0);
      var cppType := CppTypeOf(d.fieldType);
      if f.typeName.None? {
        if cppType == CppMessage || cppType == CppEnum {
          AddError(start, budget, clean);
        }
        return Some(d);
      }
      var t := LookupSymbolNoPlaceholder(f.typeName.value, d.fullName, true, start, budget, clean);
      if t.None? || (f.fieldType.None? && !t.value.IsType()) {
        AddError(start, budget, clean);
        return None;
      }
      if t.value.kind != Package {
        AnswerKnown(t);
        if clean && !hadErrors {
          FoundWhole(t, start, budget, clean);
        }
      }
      ghost var see1 := See();
      d' := LinkToType(d, f, t.value, start, budget, clean);
      WidensTrans(see0, see1, See());
    }

    /** The type of a field is set to the symbol that was found, if it is of the right kind. */
    method LinkToType(d: FieldDescriptor, f: FieldProto, t: Symbol,
                      ghost start: Snapshot, ghost budget: nat, ghost clean: bool)
      returns (d': Option<FieldDescriptor>)
      requires Linking(start, budget, clean) && (d.hasDefault ==> f.defaultValue.Some?)
      requires d.fieldType == f.fieldType.GetOr(TypeDouble) && f.typeName.Some?
      requires f.fieldType.None? ==> t.IsType()
      requires NamedBy(t.fullName, f.typeName.value, d.fullName)
      requires clean && !hadErrors && t.kind != Package ==> NulFree(t.fullName)
      requires t.kind != Package ==> Known(Use(Some(t.fullName), t.kind), See())
      modifies tables, `hadErrors, `possibleUndeclaredDependency, `undefineResolvedName
      ensures Linking(start, budget, clean) && Later()
      ensures d'.None? ==> hadErrors
      ensures d'.Some? ==> TypeLinked(d'.value, d, f, hadErrors || !clean)
      ensures d'.Some? && !hadErrors ==> AllKnown(TypeUses(d'.value), See())
      decreases budget, 15, 2
    {
      hide Linking, NamedBy, IsIdentifier, Known, Widens, See;
      WidensRefl(See());
      if Absolute(f.typeName) && NulFree(t.fullName) {
        DottedName(t.fullName, f.typeName.value, d.fullName);
      }
      var g := if f.fieldType.Some? then d
               else d.(fieldType := if t.kind == Message then TypeMessage else TypeEnum);
      var cppType := CppTypeOf(g.fieldType);
      if cppType == CppMessage {
        if t.kind != Message {
          AddError(start, budget, clean);
          return None;
        }
        if g.hasDefault {
          AddError(start, budget, clean);
        }
        d' := Some(g.(messageType := Some(t.fullName)));
      } else if cppType == CppEnum {
        if t.kind != Enum {
          AddError(start, budget, clean);
          return None;
        }
        g := LinkEnum(g, f, t, start, budget, clean);
        d' := Some(g);
      } else {
        AddError(start, budget, clean);
        d' := Some(g);
      }
    }

    method LinkEnum(d: FieldDescriptor, f: FieldProto, enumType: Symbol,
                    ghost start: Snapshot, ghost budget: nat, ghost clean: bool)
      returns (d': FieldDescriptor)
      requires Linking(start, budget, clean) && (d.hasDefault ==> f.defaultValue.Some?)
      requires Known(Use(Some(enumType.fullName), Enum), See())
      requires clean && !hadErrors ==> NulFree(enumType.fullName)
      modifies tables, `hadErrors, `possibleUndeclaredDependency, `undefineResolvedName
      ensures Linking(start, budget, clean) && Later()
      ensures d' == d.(enumType := Some(enumType.fullName), default := d'.default)
      ensures clean && !hadErrors && d.hasDefault ==> DefaultText(d'.default) == f.defaultValue.value
      ensures Known(Use(Some(enumType.fullName), Enum), See())
      decreases budget, 15, 1
    {
      hide Linking, DefaultText, See;
      var default := LinkEnumDefault(d, f, enumType, start, budget, clean);
      d' := d.(enumType := Some(enumType.fullName), default := default);
    }

    method LinkEnumDefault(d: FieldDescriptor, f: FieldProto, enumType: Symbol,
                           ghost start: Snapshot, ghost budget: nat, ghost clean: bool)
      returns (default: Default)
      requires Linking(start, budget, clean) && (d.hasDefault ==> f.defaultValue.Some?)
      requires clean && !hadErrors ==> NulFree(enumType.fullName)
      modifies tables, `hadErrors, `possibleUndeclaredDependency, `undefineResolvedName
      ensures Linking(start, budget, clean) && Later()
      ensures clean && !hadErrors && d.hasDefault ==> DefaultText(default) == f.defaultValue.value
      ensures !d.hasDefault && enumType.facts.EnumFacts? && enumType.facts.first.Some? ==>
                default == EnumDefault(enumType.facts.first.value)
      decreases budget, 15, 0
    {
      hide Linking, Answer, NamedBy, Widens, See, IsIdentifier, Table, MayResolve, Resolve, Between, LastPart, NulFree;
      WidensRefl(See());
      default := d.default;
      if d.hasDefault {
        var name := f.defaultValue.value;
        if !IsIdentifier(name) {
          AddError(start, budget, clean);
        } else {
          var v := LookupSymbolNoPlaceholder(name, enumType.fullName, false, start, budget, clean);
          if v.Some? && v.value.kind == EnumValue && v.value.facts == ValueFacts(enumType.fullName) {
            if clean && !hadErrors {
              DefaultFound(v, name, enumType, start, budget, clean);
            }
            default := EnumDefault(LastPart(v.value.fullName));
          } else {
            AddError(start, budget, clean);
          }
        }
      } else {
        match enumType.facts
        case EnumFacts(Some(first)) => default := EnumDefault(first);
        case _ =>
      }
    }

    lemma DefaultFound(v: Option<Symbol>, name: string, enumType: Symbol, start: Snapshot, budget: nat, clean: bool)
      requires Linking(start, budget, clean) && clean && !hadErrors && NulFree(enumType.fullName)
      requires Answer(v) && v.Some? && v.value.kind == EnumValue && IsIdentifier(name)
      requires NamedBy(v.value.fullName, name, enumType.fullName)
      ensures LastPart(v.value.fullName) == name
    {
      hide Linking, Answer, NamedBy, LastPart, IsIdentifier;
      FoundWhole(v, start, budget, clean);
      IdentifierIsLast(v.value.fullName, name, enumType.fullName);
    }

    /** AddFieldByNumber and, for a new extension, AddExtension; a number taken by an extension of another file is
        only warned about. */
    method AddNumber(d: FieldDescriptor, extendee: Option<Symbol>,
                     ghost start: Snapshot, ghost budget: nat, ghost clean: bool)
      requires Linking(start, budget, clean) && d.self.block in tables.allocations
      requires extendee.Some? ==> extendee.value.descriptor.block in tables.allocations
      modifies tables, `hadErrors, `fieldsByNumber
      ensures Linking(start, budget, clean) && See() == old(See())
      ensures var key := (d.containingType, d.number);
              && hadErrors == (old(hadErrors) || key in old(fieldsByNumber))
              && fieldsByNumber == old(fieldsByNumber) + {key}
              && (key !in old(fieldsByNumber) && d.isExtension && extendee.Some? ==>
                    (extendee.value.descriptor, d.number) in tables.extensions)
    {
      var key := (d.containingType, d.number);
      if key in fieldsByNumber {
        AddError(start, budget, clean);
      } else {
        fieldsByNumber := fieldsByNumber + {key};
        if d.isExtension && extendee.Some? {
          ghost var before := Snap(tables);
          var _ := tables.AddExtension(extendee.value.descriptor, d.number, d.self);
          StepsExtension(start, before, Snap(tables), (extendee.value.descriptor, d.number), d.self,
                         pool.enforceDependencies);
          if clean && !hadErrors {
            GoodIgnoresLogs(before.now, tables.Now());
          }
          hide Steps, Good, Consistent;
        }
      }
    }

    /** The storage that was there when linking began, and that of a symbol found since, is still there. */
    lemma StillAllocated(symbol: Option<Symbol>, found: Sight, start: Snapshot, budget: nat, clean: bool)
      requires Linking(start, budget, clean) && Widens(found, See())
      requires symbol.Some? ==> CStr(symbol.value.fullName) in found.symbols
                                && found.symbols[CStr(symbol.value.fullName)].value == symbol.value
      ensures forall b :: b in start.now.allocations ==> b in tables.allocations
      ensures symbol.Some? ==> symbol.value.descriptor.block in tables.allocations
    {
      StepsBlock(start, Snap(tables), pool.enforceDependencies);
    }

    method CrossLinkField(d: FieldDescriptor, f: FieldProto, ghost scope: string, ghost isExtension: bool,
                          ghost oneofCount: nat, ghost start: Snapshot, ghost budget: nat, ghost clean: bool)
      returns (d': FieldDescriptor)
      requires Linking(start, budget, clean) && d.self.block in start.now.allocations
      requires d == InitialField(f, d.self, scope, isExtension, oneofCount)
      requires !hadErrors ==> FieldOk(f, isExtension, oneofCount)
      modifies tables, `hadErrors, `possibleUndeclaredDependency, `undefineResolvedName, `fieldsByNumber
      ensures Linking(start, budget, clean) && Later()
      ensures FieldLinked(d', d, f, hadErrors || !clean)
      ensures !hadErrors ==> AllKnown(FieldUses(d'), See())
      decreases budget, 17
    {
      hide Linking, FieldOk, InRanges, NamedBy, Known, Widens, TypeUses, InitialField, Permitted, CppTypeOf, FieldUses,
           AllKnown, TypeLinked, FieldLinked, NulFree, See;
      ghost var see0 := See();
      WidensRefl(see0);
      FieldBegun(f, d.self, scope, isExtension, oneofCount);
      FieldGivenUp(d, d, f);
      d' := d;
      var extendee: Option<Symbol> := None;
      if f.extendee.Some? {
        extendee := LinkExtendee(d, f, start, budget, clean);
        if extendee.None? {
          return;
        }
        d' := d'.(containingType := Some(extendee.value.fullName));
        FieldGivenUp(d', d, f);
      }
      if d'.containingOneof.Some? && d'.fieldLabel != OptionalLabel {
        AddError(start, budget, clean);
      }
      ghost var see1 := See();
      var linked := LinkTypeAndNumber(d', f, extendee, start, budget, clean);
      WidensTrans(see0, see1, See());
      if linked.Some? {
        d' := linked.value;
        FieldFinished(d', d, f, scope, isExtension, oneofCount, extendee, hadErrors, clean, see1, See());
      }
    }

    /** The second part of linking a field, once its extendee is known. */
    method LinkTypeAndNumber(d: FieldDescriptor, f: FieldProto, extendee: Option<Symbol>,
                             ghost start: Snapshot, ghost budget: nat, ghost clean: bool)
      returns (d': Option<FieldDescriptor>)
      requires Linking(start, budget, clean) && d.self.block in start.now.allocations
      requires d.fieldType == f.fieldType.GetOr(TypeDouble) && (d.hasDefault ==> f.defaultValue.Some?)
      requires Answer(extendee)
      modifies tables, `hadErrors, `possibleUndeclaredDependency, `undefineResolvedName, `fieldsByNumber
      ensures Linking(start, budget, clean) && Later()
      ensures d'.None? ==> hadErrors
      ensures d'.Some? ==> TypeLinked(d'.value, d, f, hadErrors || !clean)
      ensures d'.Some? && !hadErrors ==> AllKnown(TypeUses(d'.value), See())
      decreases budget, 16, 1
    {
      hide Linking, InRanges, NamedBy, Known, Widens, TypeUses, AllKnown, TypeLinked, CppTypeOf, Permitted;
      ghost var see := See();
      d' := LinkType(d, f, start, budget, clean);
      if d'.Some? {
        ghost var failed := hadErrors;
        TypeLinkedSelf(d'.value, d, f, failed || !clean);
        StillAllocated(extendee, see, start, budget, clean);
        AddNumber(d'.value, extendee, start, budget, clean);
        TypeLinkedLater(d'.value, d, f, failed || !clean, hadErrors || !clean);
      }
    }

    lemma TypeLinkedLater(d': FieldDescriptor, d: FieldDescriptor, f: FieldProto, failed: bool, failed': bool)
      requires TypeLinked(d', d, f, failed) && (failed ==> failed')
      ensures TypeLinked(d', d, f, failed')
    {
    }

    lemma FieldBegun(f: FieldProto, self: Ptr, scope: string, isExtension: bool, oneofCount: nat)
      ensures var d := InitialField(f, self, scope, isExtension, oneofCount);
              d.fieldType == f.fieldType.GetOr(TypeDouble) && (d.hasDefault ==> f.defaultValue.Some?)
    {
    }

    lemma FieldGivenUp(d': FieldDescriptor, d: FieldDescriptor, f: FieldProto)
      requires d' == d.(containingType := d'.containingType)
      ensures FieldLinked(d', d, f, true)
    {
    }

    lemma TypeLinkedSelf(d': FieldDescriptor, d: FieldDescriptor, f: FieldProto, failed: bool)
      requires TypeLinked(d', d, f, failed)
      ensures d'.self == d.self && d'.isExtension == d.isExtension && d'.containingType == d.containingType
    {
    }

    lemma FieldFinished(d': FieldDescriptor, d: FieldDescriptor, f: FieldProto, scope: string, isExtension: bool,
                        oneofCount: nat, extendee: Option<Symbol>, failed: bool, clean: bool, s1: Sight, s2: Sight)
      requires d == InitialField(f, d.self, scope, isExtension, oneofCount)
      requires !failed ==> FieldOk(f, isExtension, oneofCount)
      requires extendee.Some? == f.extendee.Some?
      requires extendee.Some? ==> NamedBy(extendee.value.fullName, f.extendee.value, d.fullName)
                                  && (clean && !failed ==> NulFree(extendee.value.fullName))
                                  && Known(Use(Some(extendee.value.fullName), Message), s1)
      requires TypeLinked(d', if extendee.Some? then d.(containingType := Some(extendee.value.fullName)) else d, f,
                          failed || !clean)
      requires Widens(s1, s2) && (!failed ==> AllKnown(TypeUses(d'), s2))
      ensures FieldLinked(d', d, f, failed || !clean)
      ensures !failed ==> AllKnown(FieldUses(d'), s2)
    {
      FieldDone(d', d, f, scope, isExtension, oneofCount,
                if extendee.Some? then Some(extendee.value.fullName) else None, failed || !clean);
      if !failed {
        ExtensionHasExtendee(f, isExtension, oneofCount);
        FieldKnown(d', extendee, s1, s2);
      }
    }

    lemma FieldKnown(d: FieldDescriptor, extendee: Option<Symbol>, s1: Sight, s2: Sight)
      requires d.isExtension == extendee.Some? && Widens(s1, s2) && AllKnown(TypeUses(d), s2)
      requires extendee.Some? ==> d.containingType == Some(extendee.value.fullName)
                                  && Known(Use(Some(extendee.value.fullName), Message), s1)
      ensures AllKnown(FieldUses(d), s2)
    {
      hide TypeUses;
    }

    lemma ExtensionHasExtendee(f: FieldProto, isExtension: bool, oneofCount: nat)
      requires FieldOk(f, isExtension, oneofCount)
      ensures f.extendee.Some? == isExtension
    {
    }

    method CrossLinkFields(ds: seq<FieldDescriptor>, fs: seq<FieldProto>, ghost scope: string, ghost isExtension: bool,
                           ghost oneofCount: nat, ghost start: Snapshot, ghost budget: nat, ghost clean: bool)
      returns (ds': seq<FieldDescriptor>)
      requires Linking(start, budget, clean)
      requires FieldsBuilt(ds, fs, scope, isExtension, oneofCount, start.now.allocations)
      requires !hadErrors ==> AllOk(FieldElements(fs, scope, isExtension, oneofCount))
      modifies tables, `hadErrors, `possibleUndeclaredDependency, `undefineResolvedName, `fieldsByNumber
      ensures Linking(start, budget, clean) && Later()
      ensures FieldsLinked(ds', ds, fs, hadErrors || !clean)
      ensures !hadErrors ==> FieldsKnown(ds', See())
      decreases budget, 18
    {
      hide Linking, FieldOk, FieldElements, AllOk, FieldLinked, Widens, AllKnown, FieldUses;
      WidensRefl(See());
      if !hadErrors {
        FieldsOk(fs, scope, isExtension, oneofCount);
      }
      ds' := [];
      var i := 0;
      while i < |fs|
        invariant 0 <= i <= |fs| && |ds'| == i
        invariant Linking(start, budget, clean) && Later()
        invariant forall j :: 0 <= j < i ==> FieldLinked(ds'[j], ds[j], fs[j], hadErrors || !clean)
        invariant !hadErrors ==> FieldsKnown(ds', See())
      {
        ghost var failed, before := hadErrors, See();
        var d := CrossLinkField(ds[i], fs[i], scope, isExtension, oneofCount, start, budget, clean);
        FieldsLinkedLater(ds', ds, fs, i, failed || !clean, hadErrors || !clean);
        WidensTrans(old(See()), before, See());
        if !hadErrors {
          FieldsKnownLater(ds', before, See());
        }
        ds' := ds' + [d];
        i := i + 1;
      }
    }

    /** The storage of the oneof listings. */
    method AllocateListings(oneofs: seq<OneofDescriptor>, ghost start: Snapshot, ghost budget: nat, ghost clean: bool)
      requires Linking(start, budget, clean)
      modifies tables
      ensures Linking(start, budget, clean) && See() == old(See())
    {
      var j := 0;
      while j < |oneofs|
        invariant 0 <= j <= |oneofs| && Linking(start, budget, clean) && See() == old(See())
      {
        ghost var before := Snap(tables);
        var _ := tables.AllocateArray(oneofs[j].fieldCount);
        StepsAllocate(start, before, Snap(tables), pool.enforceDependencies);
        if clean && !hadErrors {
          GoodIgnoresLogs(before.now, tables.Now());
        }
        hide Steps, Good, Consistent;
        j := j + 1;
      }
    }

    method CrossLinkMessage(d: MessageDescriptor, m: MessageProto, ghost scope: string,
                            ghost start: Snapshot, ghost budget: nat, ghost clean: bool)
      returns (d': MessageDescriptor)
      requires Linking(start, budget, clean)
      requires MessageBuilt(d, m, scope, start.now.allocations)
      requires !hadErrors ==> AllOk(MessageElements(m, scope))
      modifies tables, `hadErrors, `possibleUndeclaredDependency, `undefineResolvedName, `fieldsByNumber
      ensures Linking(start, budget, clean) && Later()
      ensures MessageLinked(d', m, hadErrors || !clean)
      ensures !hadErrors ==> MessageKnown(d', See())
      decreases budget, 19, m, 1
    {
      hide Linking, MessageElements, FieldElements, AllOk, CanonicalMessage, CopyMessage, FieldsLinked, FieldsBuilt,
           Widens, MessageKnown, FieldsKnown, MessagesKnown, See, MessageLinked, AllMessageElements;
      ghost var see0 := See();
      ghost var fullName := d.fullName;
      if !hadErrors {
        MessagePartsOk(m, scope);
      }
      var nested := CrossLinkMessages(d.nested, m.nested, fullName, start, budget, clean);
      ghost var see1 := See();
      var fields := CrossLinkFields(d.fields, m.fields, fullName, false, |m.oneofs|, start, budget, clean);
      ghost var linked, failed, see2 := fields, hadErrors, See();
      WidensTrans(see0, see1, see2);
      OneofsInRange(fields, d, m, scope, start.now.allocations, hadErrors || !clean);
      var extensions := CrossLinkFields(d.extensions, m.extensions, fullName, true, 0, start, budget, clean);
      WidensTrans(see0, see2, See());
      ghost var known := !hadErrors;
      var oneofs;
      fields, oneofs := LayOutOneofs(fields, d.oneofs, start, budget, clean);
      if known {
        PartsKnown(linked, d.oneofs, fields, oneofs, nested, see1, see2, See());
      }
      d' := d.(fields := fields, oneofs := oneofs, nested := nested, extensions := extensions);
      if !hadErrors {
        MessageAllKnown(d', See());
      }
      MessageDone(d', d, m, scope, start.now.allocations, linked, hadErrors || !clean);
    }

    /** Lays out the oneofs of a message; an empty one is an error. */
    method LayOutOneofs(fields: seq<FieldDescriptor>, oneofs: seq<OneofDescriptor>,
                        ghost start: Snapshot, ghost budget: nat, ghost clean: bool)
      returns (fields': seq<FieldDescriptor>, oneofs': seq<OneofDescriptor>)
      requires Linking(start, budget, clean) && Oneofs.InRange(fields, |oneofs|)
      modifies tables, `hadErrors
      ensures Linking(start, budget, clean) && See() == old(See()) && (old(hadErrors) ==> hadErrors)
      ensures Oneofs.LaidOut(fields, oneofs, fields', oneofs')
    {
      hide Linking, Oneofs.LaidOut;
      var someEmpty;
      fields', oneofs', someEmpty := Oneofs.LayOut(fields, oneofs);
      if someEmpty {
        AddError(start, budget, clean);
      }
      AllocateListings(oneofs', start, budget, clean);
    }

    /** What was resolved for the nested messages and the fields still is after the extensions are linked. */
    lemma PartsKnown(linked: seq<FieldDescriptor>, oneofs: seq<OneofDescriptor>, fields: seq<FieldDescriptor>,
                     oneofs': seq<OneofDescriptor>, nested: seq<MessageDescriptor>, s1: Sight, s2: Sight, s3: Sight)
      requires Oneofs.LaidOut(linked, oneofs, fields, oneofs')
      requires MessagesKnown(nested, s1) && FieldsKnown(linked, s2) && Widens(s1, s2) && Widens(s2, s3)
      ensures MessagesKnown(nested, s3) && FieldsKnown(fields, s3)
    {
      hide *;
      WidensTrans(s1, s2, s3);
      MessagesKnownLater(nested, s1, s3);
      FieldsKnownLater(linked, s2, s3);
      LaidOutKnown(linked, oneofs, fields, oneofs', s3);
    }

    method CrossLinkMessages(ds: seq<MessageDescriptor>, ms: seq<MessageProto>, ghost scope: string,
                             ghost start: Snapshot, ghost budget: nat, ghost clean: bool)
      returns (ds': seq<MessageDescriptor>)
      requires Linking(start, budget, clean)
      requires |ds| == |ms| && forall i :: 0 <= i < |ms| ==> MessageBuilt(ds[i], ms[i], scope, start.now.allocations)
      requires !hadErrors ==> AllOk(AllMessageElements(ms, scope))
      modifies tables, `hadErrors, `possibleUndeclaredDependency, `undefineResolvedName, `fieldsByNumber
      ensures Linking(start, budget, clean) && Later()
      ensures |ds'| == |ms| && forall i :: 0 <= i < |ms| ==> MessageLinked(ds'[i], ms[i], hadErrors || !clean)
      ensures !hadErrors ==> MessagesKnown(ds', See())
      decreases budget, 19, ms, 0
    {
      hide Linking, MessageElements, AllMessageElements, AllOk, MessageLinked, MessageKnown, MessageBuilt, Widens, See;
      WidensRefl(See());
      if !hadErrors {
        MessagesOk(ms, scope);
      }
      ds' := [];
      var i := 0;
      while i < |ms|
        invariant 0 <= i <= |ms| && |ds'| == i
        invariant Linking(start, budget, clean) && Later()
        invariant forall j :: 0 <= j < i ==> MessageLinked(ds'[j], ms[j], hadErrors || !clean)
        invariant !hadErrors ==> MessagesKnown(ds', See())
      {
        ghost var failed, before := hadErrors, See();
        var d := CrossLinkMessage(ds[i], ms[i], scope, start, budget, clean);
        MessagesLinkedLater(ds', ms, i, failed || !clean, hadErrors || !clean);
        WidensTrans(old(See()), before, See());
        if !hadErrors {
          MessagesKnownLater(ds', before, See());
        }
        ds' := ds' + [d];
        i := i + 1;
      }
    }

    /** Resolves the input or output type of a method; None after an error. */
    method LinkMethodType(name: string, scope: string, ghost start: Snapshot, ghost budget: nat, ghost clean: bool)
      returns (fullName: Option<string>)
      requires Linking(start, budget, clean)
      modifies tables, `hadErrors, `possibleUndeclaredDependency, `undefineResolvedName
      ensures Linking(start, budget, clean) && Later()
      ensures clean && !hadErrors && Absolute(Some(name)) && NulFree(name) ==> Dotted(fullName) == name
      ensures !hadErrors ==> Known(Use(fullName, Message), See())
      decreases budget, 15
    {
      hide Linking, NamedBy, Permitted, Known;
      var t := LookupSymbolNoPlaceholder(name, scope, false, start, budget, clean);
      fullName := None;
      if t.None? || t.value.kind != Message {
        AddError(start, budget, clean);
      } else {
        fullName := Some(t.value.fullName);
        AnswerKnown(t);
        if clean && !hadErrors {
          FoundWhole(t, start, budget, clean);
          if Absolute(Some(name)) {
            DottedName(t.value.fullName, name, scope);
          }
        }
      }
    }

    method CrossLinkService(d: ServiceDescriptor, s: ServiceProto, ghost scope: string,
                            ghost start: Snapshot, ghost budget: nat, ghost clean: bool)
      returns (d': ServiceDescriptor)
      requires Linking(start, budget, clean) && d == ServiceOf(s, scope)
      modifies tables, `hadErrors, `possibleUndeclaredDependency, `undefineResolvedName
      ensures Linking(start, budget, clean) && Later()
      ensures ServiceLinked(d', s, hadErrors || !clean)
      ensures !hadErrors ==> ServiceKnown(d', See())
      decreases budget, 18
    {
      hide Linking, Widens, Known, See;
      WidensRefl(See());
      var methods: seq<MethodDescriptor> := [];
      var i := 0;
      while i < |s.methods|
        invariant 0 <= i <= |s.methods| && |methods| == i
        invariant Linking(start, budget, clean) && Later()
        invariant forall j :: 0 <= j < i && clean && !hadErrors && CanonicalMethod(s.methods[j]) ==>
                    CopyMethod(methods[j]) == s.methods[j]
        invariant !hadErrors ==> MethodsKnown(methods, See())
      {
        ghost var before := See();
        var m := d.methods[i];
        var input := LinkMethodType(s.methods[i].inputType, m.fullName, start, budget, clean);
        ghost var between := See();
        var output := LinkMethodType(s.methods[i].outputType, m.fullName, start, budget, clean);
        WidensTrans(before, between, See());
        WidensTrans(old(See()), before, See());
        if !hadErrors {
          MethodsKnownNext(methods, m.(inputType := input, outputType := output), before, between, See());
        }
        methods := methods + [m.(inputType := input, outputType := output)];
        i := i + 1;
      }
      d' := d.(methods := methods);
      if clean && !hadErrors && (forall m :: m in s.methods ==> CanonicalMethod(m)) {
        forall j | 0 <= j < |s.methods| ensures CopyMethod(methods[j]) == s.methods[j] {
          assert s.methods[j] in s.methods;
        }
      }
    }

    method CrossLinkServices(ds: seq<ServiceDescriptor>, ss: seq<ServiceProto>, ghost scope: string,
                             ghost start: Snapshot, ghost budget: nat, ghost clean: bool)
      returns (ds': seq<ServiceDescriptor>)
      requires Linking(start, budget, clean) && ds == ServicesOf(ss, scope)
      modifies tables, `hadErrors, `possibleUndeclaredDependency, `undefineResolvedName
      ensures Linking(start, budget, clean) && Later()
      ensures |ds'| == |ss| && forall i :: 0 <= i < |ss| ==> ServiceLinked(ds'[i], ss[i], hadErrors || !clean)
      ensures !hadErrors ==> ServicesKnown(ds', See())
      decreases budget, 19
    {
      hide Linking, ServiceOf, CopyService, Widens, ServiceKnown, See;
      WidensRefl(See());
      ds' := [];
      var i := 0;
      while i < |ss|
        invariant 0 <= i <= |ss| && |ds'| == i
        invariant Linking(start, budget, clean) && Later()
        invariant forall j :: 0 <= j < i ==> ServiceLinked(ds'[j], ss[j], hadErrors || !clean)
        invariant !hadErrors ==> ServicesKnown(ds', See())
      {
        ghost var before := See();
        var d := CrossLinkService(ds[i], ss[i], scope, start, budget, clean);
        WidensTrans(old(See()), before, See());
        if !hadErrors {
          ServicesKnownLater(ds', before, See());
        }
        ds' := ds' + [d];
        i := i + 1;
      }
    }

    // ================= building a file =================

    /** Loads the imports of a file, before its checkpoint, with the file marked as pending. The file itself is not
        loaded by that, though one may be whose name has the same front part up to a NUL. */
    method LoadImports(proto: FileProto, ghost budget: nat, ghost clean: bool)
      requires tables == pool.tables && pool.Ready(budget, clean) && pool.database.Some?
      requires proto.name in pool.database.value.files
      requires CStr(proto.name) !in tables.filesByName && proto.name !in tables.pendingFiles
      modifies tables
      ensures pool.Ready(budget, clean) && Steps(old(Snap(tables)), Snap(tables), pool.enforceDependencies)
      ensures CStr(proto.name) in tables.filesByName ==>
                var a := tables.filesByName[CStr(proto.name)].value;
                a in tables.memory && tables.memory[a].name != proto.name
      decreases budget, 8
    {
      hide Consistent, Good, Grows;
      ghost var s0 := Snap(tables);
      StartLoading(pool.database.value.files.Keys, tables.filesByName, tables.pendingFiles, proto.name);
      tables.pendingFiles := tables.pendingFiles + [proto.name];
      ghost var s1 := Snap(tables);
      StepsRefl(s1, pool.enforceDependencies);
      var i := 0;
      while i < |proto.dependencies|
        invariant 0 <= i <= |proto.dependencies|
        invariant budget > 0 && pool.Ready(budget - 1, clean) && Steps(s1, Snap(tables), pool.enforceDependencies)
      {
        if tables.FindFile(proto.dependencies[i]).None? {
          ghost var before := Snap(tables);
          // The result does not matter: a missing import is reported later.
          var _ := pool.TryFindFileInFallbackDatabase(proto.dependencies[i], budget - 1, clean);
          StepsTrans(s1, before, Snap(tables), pool.enforceDependencies);
        }
        i := i + 1;
      }
      ghost var s2 := Snap(tables);
      tables.pendingFiles := tables.pendingFiles[..|tables.pendingFiles| - 1];
      StepsPending(s0, s1, s2, Snap(tables), proto.name, pool.enforceDependencies);
      pool.StillReady(s0, budget, clean);
    }

    /** The transaction of this builder is open, and the file is on top of `base`. */
    ghost predicate Constructing(base: Contents, s0: Snapshot, proto: FileProto)
      reads `file, tables
    {
      && tables == pool.tables && tables.Valid()
      && tables.checkpoints == s0.checkpoints && |s0.checkpoints| > 0 && tables.history == s0.history
      && |s0.history.bounds| == |s0.checkpoints|
      && tables.pendingFiles == s0.pending && s0.next <= tables.next
      && FileDeclared(base, tables.Now(), proto, file)
      && file >= s0.history.bounds[|s0.checkpoints| - 1]
    }

    /** The cell of a file, its tables, and its two strings. */
    method NewFile(proto: FileProto) returns (nameString: Addr, packageString: Addr)
      requires tables.Valid()
      modifies tables, `file
      ensures tables.Valid() && tables.SameTransaction() && old(tables.next) == file <= tables.next
      ensures nameString in tables.strings && packageString in tables.strings
      ensures tables.Now() == old(tables.Now()).(allocations := old(tables.allocations) + [file],
                                                 memory := old(tables.memory)[file := InitialFile(proto)],
                                                 fileTables := tables.fileTables,
                                                 strings := old(tables.strings) + [nameString, packageString])
    {
      hide Tables.Valid;
      file := tables.AllocateFile(InitialFile(proto));
      var _ := tables.AllocateFileTables();
      nameString := tables.AllocateString();
      packageString := tables.AllocateString();
    }

    /** Allocates the file and enters it under its name; fails when the name is taken. */
    method OpenFile(proto: FileProto) returns (isNew: bool, packageString: Addr)
      requires tables == pool.tables && tables.Valid() && |tables.checkpoints| > 0
      requires |tables.history.bounds| == |tables.checkpoints|
      requires tables.history.bounds[|tables.checkpoints| - 1] == tables.next
      modifies tables, `file
      ensures tables.Valid() && tables.SameTransaction() && old(tables.next) <= tables.next
      ensures isNew == (CStr(proto.name) !in old(tables.filesByName))
      ensures isNew ==> Constructing(old(tables.Now()), old(Snap(tables)), proto)
      ensures isNew ==> packageString in tables.strings && tables.symbolsByName == old(tables.symbolsByName)
                         && tables.memory[file] == InitialFile(proto)
    {
      hide Consistent, FileDeclared, Live, CStr;
      OlderThanNext();
      ghost var base := tables.Now();
      var nameString;
      nameString, packageString := NewFile(proto);
      isNew := tables.AddFile(proto.name, nameString, file);
      if isNew {
        LiveNow();
        JustDeclared(base, tables.Now(), proto, file, nameString);
      }
    }

    lemma OlderThanNext()
      requires tables.Valid()
      ensures forall a :: a in tables.memory ==> a < tables.next
    {
      assert forall a :: a in tables.memory ==> a in Owned(tables.Now());
    }

    lemma LiveNow()
      requires tables.Valid()
      ensures Live(tables.Now())
    {
    }

    /** Finds the imports among the files of the pool. A missing import and an import listed twice are errors; the
        file itself is already in the pool and may import itself. */
    method FindImports(proto: FileProto, ghost base: Contents, ghost s0: Snapshot)
      returns (imports: seq<Option<Addr>>)
      requires Constructing(base, s0, proto)
      modifies tables, `hadErrors
      ensures Constructing(base, s0, proto) && (old(hadErrors) ==> hadErrors)
      ensures tables.symbolsByName == old(tables.symbolsByName) && tables.memory == old(tables.memory)
      ensures |imports| == |proto.dependencies|
      ensures forall i :: 0 <= i < |imports| ==>
                if imports[i].Some? then IsImport(base, file, proto.name, imports[i].value, proto.dependencies[i])
                else hadErrors
    {
      hide Constructing, IsImport;
      AllocateKeeps(base, s0, proto, |proto.dependencies|);
      var seen: set<string> := {};
      imports := [];
      var i := 0;
      while i < |proto.dependencies|
        invariant 0 <= i <= |proto.dependencies| && |imports| == i
        invariant Constructing(base, s0, proto) && (old(hadErrors) ==> hadErrors)
        invariant forall j :: 0 <= j < i ==>
                    if imports[j].Some? then IsImport(base, file, proto.name, imports[j].value, proto.dependencies[j])
                    else hadErrors
        modifies `hadErrors
      {
        var name := proto.dependencies[i];
        if name in seen {
          hadErrors := true;
        }
        seen := seen + {name};
        var dependency := tables.FindFile(name);
        if dependency.None? {
          hadErrors := true;
        } else {
          FoundImport(base, s0, proto, name);
        }
        imports := imports + [dependency];
        i := i + 1;
      }
    }

    method AllocateKeeps(ghost base: Contents, ghost s0: Snapshot, ghost proto: FileProto, count: nat)
      requires Constructing(base, s0, proto)
      modifies tables
      ensures Constructing(base, s0, proto)
      ensures tables.symbolsByName == old(tables.symbolsByName) && tables.memory == old(tables.memory)
    {
      ghost var before := tables.Now();
      var _ := tables.AllocateArray(count);
      LiveNow();
      DeclaredAllocate(base, before, tables.Now(), proto, file);
    }

    lemma FoundImport(base: Contents, s0: Snapshot, proto: FileProto, name: string)
      requires Constructing(base, s0, proto) && CStr(name) in tables.filesByName
      ensures IsImport(base, file, proto.name, tables.filesByName[CStr(name)].value, name)
    {
      hide Tables.Valid, Steps, Grows;
    }

    method FindPublicImports(proto: FileProto, ghost base: Contents, ghost s0: Snapshot) returns (indexes: seq<nat>)
      requires Constructing(base, s0, proto)
      modifies tables, `hadErrors
      ensures Constructing(base, s0, proto) && (old(hadErrors) ==> hadErrors)
      ensures tables.symbolsByName == old(tables.symbolsByName) && tables.memory == old(tables.memory)
      ensures !hadErrors ==> indexes == proto.publicDependencies
    {
      hide Constructing;
      AllocateKeeps(base, s0, proto, |proto.publicDependencies|);
      indexes := [];
      var i := 0;
      while i < |proto.publicDependencies|
        invariant 0 <= i <= |proto.publicDependencies|
        invariant Constructing(base, s0, proto) && (old(hadErrors) ==> hadErrors)
        invariant !hadErrors ==> indexes == proto.publicDependencies[..i]
        modifies `hadErrors
      {
        var index := proto.publicDependencies[i];
        if 0 <= index < |proto.dependencies| {
          indexes := indexes + [index];
        } else {
          hadErrors := true;
        }
        i := i + 1;
      }
    }

    method SetFile(f: FileDescriptor, ghost base: Contents, ghost s0: Snapshot, ghost proto: FileProto)
      requires Constructing(base, s0, proto)
      requires f.name == tables.memory[file].name && f.package == tables.memory[file].package
      requires ImportsLive(file, f, tables.memory.Keys)
      modifies tables
      ensures Constructing(base, s0, proto)
      ensures tables.memory == old(tables.memory)[file := f] && tables.symbolsByName == old(tables.symbolsByName)
      ensures tables.allocations == old(tables.allocations)
    {
      ghost var before := tables.Now();
      tables.UpdateFile(file, f);
      LiveNow();
      DeclaredUpdate(base, before, tables.Now(), proto, file, f);
    }

    /** The dependency set becomes the imports and everything they import publicly, directly or not. */
    method CollectDependencies(imports: seq<Option<Addr>>)
      requires Imports.Complete(tables.memory)
      requires forall d :: d in imports && d.Some? ==> d.value in tables.memory
      modifies `dependencies
      ensures dependencies <= tables.memory.Keys
      ensures forall a :: a in dependencies <==> Imports.Reachable(tables.memory, Imports.Present(imports), a)
    {
      ghost var roots, m := Imports.Present(imports), tables.memory;
      dependencies := {};
      var i := 0;
      while i < |imports|
        invariant 0 <= i <= |imports| && dependencies <= m.Keys
        invariant forall j :: 0 <= j < i && imports[j].Some? ==> imports[j].value in dependencies
        invariant Imports.ClosedInto(m, dependencies, dependencies)
        invariant forall a :: a in dependencies ==> Imports.Reachable(m, roots, a)
      {
        ghost var before := dependencies;
        RecordPublicDependencies(imports[i]);
        forall a | a in dependencies && a !in before ensures Imports.Reachable(m, roots, a) {
          Imports.ReachableFrom(m, {imports[i].value}, roots, a);
        }
        Imports.ClosedTogether(m, before, dependencies);
        i := i + 1;
      }
      Imports.ClosureIsReachable(m, roots, dependencies);
    }

    /** Converts the children of a file: registers their declarations and builds their descriptors. */
    method BuildChildren(proto: FileProto, f: FileDescriptor, ghost base: Contents, ghost s0: Snapshot)
      returns (f': FileDescriptor)
      requires Constructing(base, s0, proto) && f == tables.memory[file]
      modifies tables, `hadErrors
      ensures Constructing(base, s0, proto) && tables.memory == old(tables.memory)
      ensures Registers(old(Snap(tables)), Snap(tables), FileElements(proto), file, old(hadErrors), hadErrors)
      ensures ChildrenBuilt(f', f, proto, tables.allocations)
    {
      hide Constructing, Open, Registers, MessagesBuilt, FieldsBuilt, AllMessageElements, AllEnumElements,
           AllServiceElements, FieldElements, FileElements, ChildrenBuilt, FileDeclared, EnumsOf, ServicesOf;
      var scope := proto.Package();
      ghost var s, failed := Snap(tables), hadErrors;
      FileElementsInOrder(proto);
      OpenNow(base, s0, proto);
      ConstructingNow(base, s0, proto);
      var messages := BuildMessages(proto.messages, scope);
      ghost var s1, failed1, a := Snap(tables), hadErrors, tables.allocations;
      var enums := BuildEnums(proto.enums, scope);
      ghost var es1 := AllMessageElements(proto.messages, scope);
      Continue(s, failed, es1, s1, failed1, AllEnumElements(proto.enums, scope));
      ghost var s2, failed2, es2 := Snap(tables), hadErrors, es1 + AllEnumElements(proto.enums, scope);
      var services := BuildServices(proto.services, scope);
      Continue(s, failed, es2, s2, failed2, AllServiceElements(proto.services, scope));
      ghost var s3, failed3, es3 := Snap(tables), hadErrors, es2 + AllServiceElements(proto.services, scope);
      var extensions := BuildFields(proto.extensions, scope, true, 0);
      Continue(s, failed, es3, s3, failed3, FieldElements(proto.extensions, scope, true, 0));
      f' := f.(messages := messages, enums := enums, services := services, extensions := extensions);
      MessagesBuiltLater(messages, proto.messages, scope, a, tables.allocations);
      ChildrenAssembled(f', f, proto, tables.allocations);
      RegistersOwn(s, Snap(tables), FileElements(proto), file, failed, hadErrors);
      RegistersAdds(s, FileElements(proto), failed);
      StillConstructing(base, s0, proto, s);
    }

    lemma OpenNow(base: Contents, s0: Snapshot, proto: FileProto)
      requires Constructing(base, s0, proto)
      ensures Open()
    {
    }

    lemma RegistersAdds(s: Snapshot, es: seq<Element>, failed: bool)
      requires Registers(s, Snap(tables), es, file, failed, hadErrors)
      ensures Adds(s, Snap(tables))
    {
    }

    lemma StillConstructing(base: Contents, s0: Snapshot, proto: FileProto, s: Snapshot)
      requires s.checkpoints == s0.checkpoints && s.history == s0.history && s.pending == s0.pending
               && s0.next <= s.next
      requires FileDeclared(base, s.now, proto, file) && |s0.checkpoints| == |s0.history.bounds| > 0
      requires file >= s0.history.bounds[|s0.checkpoints| - 1]
      requires Open() && Adds(s, Snap(tables))
      requires forall k :: k in tables.symbolsByName && k !in s.now.symbols ==>
                   tables.symbolsByName[k].value.file == file
      ensures Constructing(base, s0, proto) && tables.memory == s.now.memory
    {
    }

    /** Registers the package of the file, if it has one. */
    method OpenPackage(proto: FileProto, packageString: Addr, ghost base: Contents, ghost s0: Snapshot)
      requires Constructing(base, s0, proto) && packageString in tables.strings
      modifies tables, `hadErrors
      ensures Constructing(base, s0, proto) && tables.memory == old(tables.memory)
      ensures Book(View(tables.symbolsByName), hadErrors)
           == PackageBook(Book(View(old(tables.symbolsByName)), old(hadErrors)), proto, file)
      ensures old(hadErrors) ==> hadErrors
    {
      hide Constructing, Open, Adds, RegisterPackage, FileDeclared, View;
      if proto.Package() != "" {
        ghost var s, failed := Snap(tables), hadErrors;
        OpenNow(base, s0, proto);
        ConstructingNow(base, s0, proto);
        AddPackage(proto.Package(), packageString);
        PackageOwn(s, Snap(tables), proto.Package(), file, failed, hadErrors);
        StillConstructing(base, s0, proto, s);
      }
    }

    /** Cross-links all parts of the file. */
    method CrossLinkFile(f: FileDescriptor, proto: FileProto, ghost start: Snapshot, ghost budget: nat,
                         ghost clean: bool)
      returns (f': FileDescriptor)
      requires Linking(start, budget, clean)
      requires ChildrenBuilt(f, f, proto, start.now.allocations)
      requires !hadErrors ==> AllOk(FileElements(proto))
      modifies tables, `hadErrors, `possibleUndeclaredDependency, `undefineResolvedName, `fieldsByNumber
      ensures Linking(start, budget, clean) && Later()
      ensures f' == f.(messages := f'.messages, services := f'.services, extensions := f'.extensions)
      ensures ChildrenLinked(f', f, proto, hadErrors || !clean)
      ensures !hadErrors ==> FileKnown(f', See())
      decreases budget, 20
    {
      hide Linking, AllOk, FileElements, MessageLinked, ServiceLinked, FieldsLinked, FieldsBuilt, MessageBuilt, Widens,
           FileKnown, MessagesKnown, FieldsKnown, ServicesKnown, See;
      if !hadErrors {
        FilePartsOk(proto);
      }
      var messages := CrossLinkMessages(f.messages, proto.messages, proto.Package(), start, budget, clean);
      ghost var failed, see1 := hadErrors, See();
      var extensions := CrossLinkFields(f.extensions, proto.extensions, proto.Package(), true, 0, start, budget, clean);
      ghost var failed', see2 := hadErrors, See();
      WidensTrans(old(See()), see1, see2);
      var services := CrossLinkServices(f.services, proto.services, proto.Package(), start, budget, clean);
      WidensTrans(old(See()), see2, See());
      f' := f.(messages := messages, services := services, extensions := extensions);
      MessagesLinkedLater(messages, proto.messages, |proto.messages|, failed || !clean, hadErrors || !clean);
      AllFieldsLinkedLater(extensions, f.extensions, proto.extensions, failed' || !clean, hadErrors || !clean);
      if !hadErrors {
        WidensTrans(see1, see2, See());
        MessagesKnownLater(messages, see1, See());
        FieldsKnownLater(extensions, see2, See());
        FileAllKnown(f', See());
      }
    }

    method IsPending(name: string) returns (pending: bool)
      ensures pending <==> name in tables.pendingFiles
    {
      pending := false;
      var i := 0;
      while i < |tables.pendingFiles|
        invariant 0 <= i <= |tables.pendingFiles|
        invariant pending <==> name in tables.pendingFiles[..i]
      {
        if tables.pendingFiles[i] == name {
          pending := true;
        }
        i := i + 1;
      }
    }

    /** What a build, seen from outside, does: `base` are the contents at its checkpoint. */
    ghost predicate Built(s: Snapshot, base: Contents, proto: FileProto, result: Option<Addr>, clean: bool)
      reads tables
    {
      && Steps(s, Snap(tables), pool.enforceDependencies)
      && Grows(s.now, base, pool.enforceDependencies)
      && (result.None? ==> tables.Now() == base)
      && (result.Some? ==>
            && tables.FindFile(proto.name) == result
            && result.value in tables.memory
            && (clean && Canonical(proto) && ImportsSpelled(base, proto) ==>
                  CopyFile(tables.memory[result.value], tables.memory) == proto)
            && (CStr(proto.name) !in base.files ==> Declares(tables.symbolsByName, proto, result.value)))
    }

    lemma BuiltSteps(s: Snapshot, base: Contents, proto: FileProto, result: Option<Addr>, clean: bool)
      requires Built(s, base, proto, result, clean)
      ensures Steps(s, Snap(tables), pool.enforceDependencies)
              && (result.Some? ==> tables.FindFile(proto.name) == result)
    {
    }

    lemma BuiltResult(s: Snapshot, base: Contents, proto: FileProto, result: Option<Addr>, clean: bool)
      requires Built(s, base, proto, result, clean)
      ensures Steps(s, Snap(tables), pool.enforceDependencies)
      ensures result.None? ==> tables.Now() == base
      ensures result.Some? ==> tables.FindFile(proto.name) == result && result.value in tables.memory
      ensures result.Some? && clean && CanonicalForm(proto) && Spelled(proto) && ImportsSpelled(base, proto) ==>
                CopyFile(tables.memory[result.value], tables.memory) == proto
      ensures result.Some? && CStr(proto.name) !in base.files ==>
                Declares(tables.symbolsByName, proto, result.value)
    {
      hide Steps, Grows, CanonicalForm, Spelled, ImportsSpelled, CopyFile, Declares, CStr;
    }

    /** The builder that BuildFile starts from. */
    ghost predicate Idle()
      reads this
    {
      tables == pool.tables && !hadErrors && dependencies == {} && fieldsByNumber == {}
    }

    method BuildFile(proto: FileProto, ghost budget: nat, ghost clean: bool)
      returns (result: Option<Addr>, ghost base: Contents)
      requires Idle() && pool.Ready(budget, clean)
      requires pool.database.None? ==> budget > 0
      requires pool.database.Some? ==>
                 proto.name in pool.database.value.files && CStr(proto.name) !in tables.filesByName
      modifies tables, this
      ensures pool.Ready(budget, clean) && Built(old(Snap(tables)), base, proto, result, clean)
      ensures pool.database.None? ==> base == old(tables.Now())
      ensures AlreadyThere(old(tables.Now()), proto) ==>
                result == old(tables.FindFile(proto.name)) && tables.Now() == old(tables.Now())
      ensures pool.database.None? && old(tables.FindFile(proto.name)).Some? ==>
                AlreadyThere(old(tables.Now()), proto) || result.None?
      decreases budget, 9, 1
    {
      hide Consistent, Good, Grows, Built, CopyFile, Steps;
      base := tables.Now();
      StepsRefl(Snap(tables), pool.enforceDependencies);
      var existing := tables.FindFile(proto.name);
      if existing.Some? {
        LiveNow();
        if CopyFile(tables.memory[existing.value], tables.memory) == proto {
          Existing(Snap(tables), base, proto, existing, clean);
          return existing, base;
        }
      }
      var pending := IsPending(proto.name);
      if pending {
        hadErrors := true;
        NotBuilt(Snap(tables), base, proto, clean);
        return None, base;
      }
      result, base := BuildNew(proto, budget, clean);
    }

    /** Builds a file that is neither there nor pending: its imports first, then the file in a transaction. */
    method BuildNew(proto: FileProto, ghost budget: nat, ghost clean: bool)
      returns (result: Option<Addr>, ghost base: Contents)
      requires Idle() && pool.Ready(budget, clean) && proto.name !in tables.pendingFiles
      requires pool.database.None? ==> budget > 0
      requires pool.database.Some? ==>
                 proto.name in pool.database.value.files && CStr(proto.name) !in tables.filesByName
      modifies tables, this
      ensures pool.Ready(budget, clean) && Built(old(Snap(tables)), base, proto, result, clean)
      ensures pool.database.None? ==> base == old(tables.Now())
      ensures pool.database.None? && old(tables.FindFile(proto.name)).Some? ==> result.None?
      decreases budget, 9, 0
    {
      hide Consistent, Good, Grows, Built, Steps, BeforeBuild;
      ghost var s := Snap(tables);
      StepsRefl(s, pool.enforceDependencies);
      if pool.database.Some? {
        LoadImports(proto, budget, clean);
      }
      base := tables.Now();
      ghost var s' := Snap(tables);
      ReadyToBuild(s, proto, budget, clean);
      result := BuildInTransaction(proto, budget, clean);
      BuiltAfter(s, s', base, proto, result, clean);
    }

    lemma ReadyToBuild(s: Snapshot, proto: FileProto, budget: nat, clean: bool)
      requires tables == pool.tables && pool.Ready(budget, clean) && Steps(s, Snap(tables), pool.enforceDependencies)
      requires proto.name !in s.pending && (pool.database.None? ==> budget > 0)
      requires pool.database.Some? ==> proto.name in pool.database.value.files
      ensures BeforeBuild(Snap(tables), proto, budget, clean)
    {
      hide Consistent, Good, Grows;
    }

    lemma Existing(s: Snapshot, base: Contents, proto: FileProto, existing: Option<Addr>, clean: bool)
      requires s == Snap(tables) && base == tables.Now() && existing.Some? && tables.FindFile(proto.name) == existing
      requires existing.value in tables.memory && CopyFile(tables.memory[existing.value], tables.memory) == proto
      ensures Built(s, base, proto, existing, clean)
    {
      hide CopyFile, Grows, Declares;
      StepsRefl(s, pool.enforceDependencies);
      GrowsRefl(base, pool.enforceDependencies);
    }

    lemma NotBuilt(s: Snapshot, base: Contents, proto: FileProto, clean: bool)
      requires s == Snap(tables) && base == tables.Now()
      ensures Built(s, base, proto, None, clean)
    {
    }

    lemma BuiltAfter(s: Snapshot, s': Snapshot, base: Contents, proto: FileProto, result: Option<Addr>, clean: bool)
      requires Steps(s, s', pool.enforceDependencies) && Built(s', base, proto, result, clean) && base == s'.now
      ensures Built(s, base, proto, result, clean)
    {
      StepsTrans(s, s', Snap(tables), pool.enforceDependencies);
    }

    /** Finds the imports, records them in the cell of the file, and collects the dependency set. */
    method SetImports(proto: FileProto, ghost base: Contents, ghost s0: Snapshot) returns (f: FileDescriptor)
      requires Constructing(base, s0, proto) && tables.memory[file] == InitialFile(proto)
      modifies tables, `hadErrors, `dependencies
      ensures Constructing(base, s0, proto) && tables.symbolsByName == old(tables.symbolsByName)
      ensures f == tables.memory[file] && ImportsFound(base, file, proto, f, hadErrors)
      ensures (old(hadErrors) ==> hadErrors) && dependencies <= tables.memory.Keys
      ensures forall a :: a in dependencies <==>
                Imports.Reachable(tables.memory, Imports.Present(f.dependencies), a)
    {
      hide Constructing, FileDeclared, Imports.Reachable, Imports.Complete;
      CellThere(base, s0, proto);
      var imports := FindImports(proto, base, s0);
      var indexes := FindPublicImports(proto, base, s0);
      f := tables.memory[file].(dependencies := imports, publicDependencies := indexes);
      ConstructingNow(base, s0, proto);
      NewImportsLive(base, tables.Now(), proto, file, f);
      SetFile(f, base, s0, proto);
      MemoryComplete(base, s0, proto);
      CollectDependencies(imports);
    }

    lemma CellThere(base: Contents, s0: Snapshot, proto: FileProto)
      requires Constructing(base, s0, proto)
      ensures file in tables.memory
      ensures tables.memory[file].name == proto.name && tables.memory[file].package == proto.Package()
      ensures ImportsLive(file, tables.memory[file], tables.memory.Keys)
    {
    }

    lemma MemoryComplete(base: Contents, s0: Snapshot, proto: FileProto)
      requires Constructing(base, s0, proto)
      ensures Imports.Complete(tables.memory)
      ensures forall d :: d in tables.memory[file].dependencies && d.Some? ==> d.value in tables.memory
    {
      forall a, d | a in tables.memory && d in tables.memory[a].dependencies && d.Some?
        ensures d.value in tables.memory
      {
        assert ImportsLive(a, tables.memory[a], tables.memory.Keys);
      }
    }

    /** Rolls back to the checkpoint of this builder: the build is as if it had never begun. */
    method RollBack(ghost s: Snapshot, ghost s0: Snapshot, ghost proto: FileProto, ghost budget: nat, ghost clean: bool)
      requires tables == pool.tables && Checkpointed(s, s0) && InTransaction(s0)
      requires BeforeBuild(s, proto, budget, clean)
      modifies tables
      ensures pool.Ready(budget, clean) && Built(s, s.now, proto, None, clean)
    {
      hide Consistent, Good, Grows;
      tables.RollbackToLastCheckpoint();
      GrowsRefl(s.now, pool.enforceDependencies);
    }

    /** The open transaction is the one begun at `s0`. */
    ghost predicate InTransaction(s0: Snapshot)
      reads tables
    {
      && tables.Valid() && tables.checkpoints == s0.checkpoints
      && tables.history.saved == s0.history.saved && tables.history.bounds == s0.history.bounds
      && tables.pendingFiles == s0.pending && s0.next <= tables.next
    }

    /** What a build may assume about the pool when it opens its checkpoint. */
    ghost predicate BeforeBuild(s: Snapshot, proto: FileProto, budget: nat, clean: bool) {
      && (pool.database.Some? ==>
            && pool.database.value.Keyed()
            && proto.name in pool.database.value.files
            && |Unseen(pool.database.value.files.Keys, s.now.files, s.pending)| <= budget)
      && (pool.database.None? ==> budget > 0)
      && proto.name !in s.pending
      && (clean ==> Good(s.now))
    }

    /** Cross-linking can start once the declarations are registered and the imports are set. */
    lemma StartLinking(s: Snapshot, s0: Snapshot, proto: FileProto, f: FileDescriptor,
                       packageBook: Book, before: Snapshot, declared: Snapshot, failed: bool,
                       budget: nat, clean: bool)
      requires Checkpointed(s, s0) && Constructing(s.now, s0, proto) && BeforeBuild(s, proto, budget, clean)
      requires dependencies <= tables.memory.Keys
      requires packageBook == PackageBook(Book(View(s.now.symbols), false), proto, file)
      requires packageBook.symbols == View(before.now.symbols) && (packageBook.failed ==> failed)
      requires Registers(before, declared, FileElements(proto), file, failed, hadErrors)
      requires declared.now.symbols == tables.symbolsByName
      requires tables.memory[file].dependencies == f.dependencies && ImportsFound(s.now, file, proto, f, failed)
      ensures budget > 0 && Linking(Snap(tables), budget - 1, clean)
      ensures !hadErrors ==> Declares(tables.symbolsByName, proto, file)
    {
      hide Consistent, FileElements, RegisterAll, PackageBook, Registers, ImportsFound, Good, FileSound, Declares,
           Grows, View;
      StepsRefl(Snap(tables), pool.enforceDependencies);
      if pool.database.Some? {
        FinishLoading(pool.database.value.files.Keys, s.now.files, tables.filesByName, s.pending, proto.name);
      }
      RegistersOwn(before, declared, FileElements(proto), file, failed, hadErrors);
      if !hadErrors {
        SoundFile(s.now, before, declared, tables.Now(), proto, file, f, packageBook);
        AllDeclared(s.now, tables.Now(), proto, file);
        if clean {
          DeclaredGood(s.now, tables.Now(), proto, file);
        }
      }
    }

    /** Builds a file between a checkpoint and its commit or rollback. */
    method BuildInTransaction(proto: FileProto, ghost budget: nat, ghost clean: bool) returns (result: Option<Addr>)
      requires Idle() && tables.Valid() && BeforeBuild(Snap(tables), proto, budget, clean)
      modifies tables, this
      ensures pool.Ready(budget, clean) && Built(old(Snap(tables)), old(tables.Now()), proto, result, clean)
      ensures result.Some? ==> AllOk(FileElements(proto)) && FileValid(proto)
      ensures old(tables.FindFile(proto.name)).Some? ==> result.None?
      decreases budget, 8, 1
    {
      hide Consistent, Good, Grows, Built, Constructing, BeforeBuild, FileElements, AllOk, FileValid;
      ghost var s := Snap(tables);
      tables.AddCheckpoint();
      ghost var s0 := Snap(tables);
      var isNew, packageString := OpenFile(proto);
      if isNew {
        result := BuildOpened(proto, packageString, s, s0, budget, clean);
      } else {
        hadErrors := true;
        RollBack(s, s0, proto, budget, clean);
        result := None;
      }
    }

    /** Builds a file that has been entered: package, imports, children, cross-linking, commit or rollback. */
    method BuildOpened(proto: FileProto, packageString: Addr, ghost s: Snapshot, ghost s0: Snapshot,
                       ghost budget: nat, ghost clean: bool)
      returns (result: Option<Addr>)
      requires Constructing(s.now, s0, proto) && Checkpointed(s, s0) && BeforeBuild(s, proto, budget, clean)
      requires !hadErrors && packageString in tables.strings
      requires tables.symbolsByName == s.now.symbols && tables.memory[file] == InitialFile(proto)
      modifies tables, this
      ensures pool.Ready(budget, clean) && Built(s, s.now, proto, result, clean)
      ensures result.Some? ==> AllOk(FileElements(proto)) && FileValid(proto)
      decreases budget, 8, 0
    {
      hide Consistent, Good, Grows, Built, Constructing, Linking, Canonical, ChildrenLinked, ChildrenBuilt, Registers,
           BeforeBuild, ImportsFound, FileElements, AllOk, FileValid, Imports.Reachable, PackageBook, FileDeclared,
           Declares, MayUse, SameImports;
      OpenPackage(proto, packageString, s.now, s0);
      ghost var packageBook := Book(View(tables.symbolsByName), hadErrors);
      var f := SetImports(proto, s.now, s0);
      CellThere(s.now, s0, proto);
      ghost var before, failed, imports, reached := Snap(tables), hadErrors, f, tables.memory;
      f := BuildChildren(proto, f, s.now, s0);
      ghost var declared := Snap(tables);
      RegistersOwn(before, declared, FileElements(proto), file, failed, hadErrors);
      ChildrenKeepImports(s.now, s0, proto, f, imports);
      SetFile(f, s.now, s0, proto);
      StartLinking(s, s0, proto, imports, packageBook, before, declared, failed, budget, clean);
      KeptImports(imports, f, reached);
      DependenciesUsable(imports, reached, tables.memory);
      ImportsFoundLater(s.now, file, proto, imports, f, failed, hadErrors);
      ChildrenStay(f, imports, proto, tables.allocations);
      result := LinkAndFinish(proto, f, s, s0, budget, clean);
    }

    lemma KeptImports(f: FileDescriptor, f': FileDescriptor, m: map<Addr, FileDescriptor>)
      requires file in m && m[file] == f && tables.memory == m[file := f']
      requires f'.dependencies == f.dependencies && f'.publicDependencies == f.publicDependencies
      ensures SameImports(m, tables.memory)
    {
    }

    /** Cross-links the file that was filled in, and commits or rolls back. */
    method LinkAndFinish(proto: FileProto, f: FileDescriptor, ghost s: Snapshot, ghost s0: Snapshot,
                         ghost budget: nat, ghost clean: bool)
      returns (result: Option<Addr>)
      requires Constructing(s.now, s0, proto) && Checkpointed(s, s0) && BeforeBuild(s, proto, budget, clean)
      requires budget > 0 && Linking(Snap(tables), budget - 1, clean)
      requires tables.memory[file] == f && ChildrenBuilt(f, f, proto, tables.allocations)
      requires f.enums == EnumsOf(proto.enums, proto.Package())
      requires ImportsFound(s.now, file, proto, f, hadErrors)
      requires !hadErrors ==> AllOk(FileElements(proto)) && Declares(tables.symbolsByName, proto, file)
      requires forall a :: a in dependencies ==> MayUse(tables.memory, file, a)
      modifies tables, this
      ensures pool.Ready(budget, clean) && Built(s, s.now, proto, result, clean)
      ensures result.Some? ==> AllOk(FileElements(proto)) && FileValid(proto)
      decreases budget, 7
    {
      hide Consistent, Good, Grows, Built, Constructing, Linking, Canonical, ChildrenLinked, ChildrenBuilt,
           BeforeBuild, ImportsFound, FileElements, AllOk, FileValid, MayUse, FileDeclared, Declares, FileKnown, See,
           Widens;
      ghost var start, failed := Snap(tables), hadErrors;
      ConstructingNow(s.now, s0, proto);
      var linked := CrossLinkFile(f, proto, start, budget - 1, clean);
      ImportsFoundLater(s.now, file, proto, f, f, failed, hadErrors);
      result := Finish(proto, linked, f, start, s, s0, budget, clean);
    }

    /** The dependency set stays usable when the children of the file are filled in. */
    lemma DependenciesUsable(f: FileDescriptor, m: map<Addr, FileDescriptor>, m': map<Addr, FileDescriptor>)
      requires file in m && m[file] == f && SameImports(m, m')
      requires forall a :: a in dependencies <==> Imports.Reachable(m, Imports.Present(f.dependencies), a)
      ensures forall a :: a in dependencies ==> MayUse(m', file, a)
    {
      forall a | a in dependencies ensures MayUse(m', file, a) {
        ReachableLater(m, m', Imports.Present(f.dependencies), a);
      }
    }

    lemma ConstructingNow(base: Contents, s0: Snapshot, proto: FileProto)
      requires Constructing(base, s0, proto)
      ensures FileDeclared(base, tables.Now(), proto, file) && |s0.checkpoints| == |s0.history.bounds| > 0
      ensures file >= s0.history.bounds[|s0.checkpoints| - 1]
      ensures Snap(tables).checkpoints == s0.checkpoints && Snap(tables).history == s0.history
      ensures Snap(tables).pending == s0.pending && s0.next <= Snap(tables).next
    {
    }

    lemma ChildrenStay(f': FileDescriptor, f: FileDescriptor, proto: FileProto, blocks: seq<Addr>)
      requires ChildrenBuilt(f', f, proto, blocks)
      ensures ChildrenBuilt(f', f', proto, blocks) && f'.enums == EnumsOf(proto.enums, proto.Package())
    {
    }

    lemma ChildrenKeepImports(base: Contents, s0: Snapshot, proto: FileProto, f': FileDescriptor, f: FileDescriptor)
      requires Constructing(base, s0, proto) && f == tables.memory[file]
      requires ChildrenBuilt(f', f, proto, tables.allocations)
      ensures f'.name == f.name && f'.package == f.package && f'.dependencies == f.dependencies
      ensures f'.publicDependencies == f.publicDependencies
      ensures ImportsLive(file, f', tables.memory.Keys)
    {
      CellThere(base, s0, proto);
    }

    /** Stores the linked file, validates it, and commits or rolls back. */
    method Finish(proto: FileProto, linked: FileDescriptor, ghost f: FileDescriptor, ghost start: Snapshot,
                  ghost s: Snapshot, ghost s0: Snapshot, ghost budget: nat, ghost clean: bool)
      returns (result: Option<Addr>)
      requires budget > 0 && Linking(start, budget - 1, clean)
      requires Checkpointed(s, s0) && BeforeBuild(s, proto, budget, clean)
      requires start.checkpoints == s0.checkpoints && start.history == s0.history && start.pending == s0.pending
      requires s0.next <= start.next
      requires FileDeclared(s.now, start.now, proto, file) && start.now.memory[file] == f
      requires file >= s0.history.bounds[|s0.checkpoints| - 1]
      requires linked == f.(messages := linked.messages, services := linked.services, extensions := linked.extensions)
      requires ChildrenLinked(linked, f, proto, hadErrors || !clean) && f.enums == EnumsOf(proto.enums, proto.Package())
      requires ImportsFound(s.now, file, proto, f, hadErrors)
      requires !hadErrors ==> Declares(start.now.symbols, proto, file) && FileKnown(linked, See())
      requires forall a :: a in dependencies ==> MayUse(start.now.memory, file, a)
      modifies tables, `hadErrors
      ensures pool.Ready(budget, clean) && Built(s, s.now, proto, result, clean)
      ensures result.Some? ==> !old(hadErrors) && FileValid(proto)
    {
      hide Consistent, Good, Grows, ChildrenLinked, Canonical, CopyFile, ImportsFound, FileDeclared, BeforeBuild,
           FileValid, Declares, FileKnown, MayUse;
      ghost var last, see := Snap(tables), See();
      LinkedFile(start, budget - 1, clean, linked);
      tables.UpdateFile(file, linked);
      if !hadErrors && !FileValid(proto) {
        hadErrors := true;
      }
      if hadErrors {
        RollBack(s, s0, proto, budget, clean);
        return None;
      }
      tables.ClearLastCheckpoint();
      assert see == Sight(last.now.symbols, {file} + dependencies, pool.enforceDependencies);
      Committed(proto, linked, f, start, last, s, s0, budget, clean);
      return Some(file);
    }

    lemma LinkedFile(start: Snapshot, budget: nat, clean: bool, linked: FileDescriptor)
      requires Linking(start, budget, clean)
      requires file in start.now.memory && linked.dependencies == start.now.memory[file].dependencies
      ensures file in tables.memory && tables.memory[file] == start.now.memory[file]
      ensures ImportsLive(file, linked, tables.memory.Keys)
      ensures clean && !hadErrors ==> Good(tables.Now())
    {
      assert ImportsLive(file, tables.memory[file], tables.memory.Keys);
    }

    lemma Committed(proto: FileProto, linked: FileDescriptor, f: FileDescriptor, start: Snapshot, last: Snapshot,
                    s: Snapshot, s0: Snapshot, budget: nat, clean: bool)
      requires tables == pool.tables && tables.Valid()
      requires Steps(start, last, pool.enforceDependencies) && |last.checkpoints| > 0 && (clean ==> Good(last.now))
      requires Snap(tables)
            == Snapshot(Cleared(last.now.(memory := last.now.memory[file := linked]), |last.checkpoints| == 1),
                        last.checkpoints[..|last.checkpoints| - 1], Popped(last.history), last.pending, last.next)
      requires Checkpointed(s, s0) && BeforeBuild(s, proto, budget, clean)
      requires start.checkpoints == s0.checkpoints && start.history == s0.history && start.pending == s0.pending
      requires s0.next <= start.next
      requires FileDeclared(s.now, start.now, proto, file) && start.now.memory[file] == f
      requires linked == f.(messages := linked.messages, services := linked.services, extensions := linked.extensions)
      requires ChildrenLinked(linked, f, proto, !clean) && f.enums == EnumsOf(proto.enums, proto.Package())
      requires ImportsFound(s.now, file, proto, f, false)
      requires Declares(start.now.symbols, proto, file)
      requires FileKnown(linked, Sight(last.now.symbols, {file} + dependencies, pool.enforceDependencies))
      requires forall a :: a in dependencies ==> MayUse(start.now.memory, file, a)
      ensures pool.Ready(budget, clean) && Built(s, s.now, proto, Some(file), clean)
    {
      hide Consistent, Good, Grows, ChildrenLinked, Canonical, CopyFile, ImportsFound, Declares, FileKnown, MayUse,
           Linked;
      CommittedLinked(linked, f, start, last);
      CommitSteps(s, s0, start, last, Snap(tables), proto, file, linked, pool.enforceDependencies);
      CommittedGood(start, last, linked, f, clean);
      pool.StillReady(s, budget, clean);
      GrowsRefl(s.now, pool.enforceDependencies);
      StepsSymbols(start, last, pool.enforceDependencies);
      DeclaresLater(start.now.symbols, last.now.symbols, proto, file);
      if clean && Canonical(proto) && ImportsSpelled(s.now, proto) {
        StepsMemory(start, last, pool.enforceDependencies);
        CommittedImports(proto, linked, f, s, start, last);
        CommittedCopy(proto, linked, f, s);
      }
    }

    lemma CommittedLinked(linked: FileDescriptor, f: FileDescriptor, start: Snapshot, last: Snapshot)
      requires tables == pool.tables && Steps(start, last, pool.enforceDependencies)
      requires file in start.now.memory && start.now.memory[file] == f
      requires linked.dependencies == f.dependencies && linked.publicDependencies == f.publicDependencies
      requires tables.symbolsByName == last.now.symbols && tables.memory == last.now.memory[file := linked]
      requires FileKnown(linked, Sight(last.now.symbols, {file} + dependencies, pool.enforceDependencies))
      requires forall a :: a in dependencies ==> MayUse(start.now.memory, file, a)
      ensures Linked(tables.Now(), file, pool.enforceDependencies)
    {
      StepsMemory(start, last, pool.enforceDependencies);
      hide FileKnown, Steps, Linked;
      KnownLinked(start.now, last.now, tables.Now(), file, linked, {file} + dependencies, pool.enforceDependencies);
    }

    lemma CommittedGood(start: Snapshot, last: Snapshot, linked: FileDescriptor, f: FileDescriptor, clean: bool)
      requires tables.Valid() && Steps(start, last, pool.enforceDependencies) && (clean ==> Good(last.now))
      requires file in start.now.memory && start.now.memory[file] == f
      requires linked.name == f.name && linked.package == f.package && linked.dependencies == f.dependencies
      requires tables.symbolsByName == last.now.symbols && tables.filesByName == last.now.files
      requires tables.memory == last.now.memory[file := linked] && tables.order == last.now.order
      ensures clean ==> Good(tables.Now())
    {
      LiveNow();
      hide Consistent, Good;
      if clean {
        GoodUpdate(last.now, tables.Now(), file, linked);
      }
    }

    lemma CommittedCopy(proto: FileProto, linked: FileDescriptor, f: FileDescriptor, s: Snapshot)
      requires Canonical(proto) && ChildrenLinked(linked, f, proto, false)
      requires linked.name == proto.name && linked.package == proto.Package()
      requires linked.dependencies == f.dependencies && linked.publicDependencies == f.publicDependencies
      requires linked.enums == EnumsOf(proto.enums, proto.Package())
      requires ImportsFound(s.now, file, proto, f, false)
      requires forall i :: 0 <= i < |proto.dependencies| && i < |linked.dependencies| ==>
                 linked.dependencies[i].Some? && linked.dependencies[i].value in tables.memory
                 && tables.memory[linked.dependencies[i].value].name == proto.dependencies[i]
      ensures CopyFile(linked, tables.memory) == proto
    {
      hide Canonical, ChildrenLinked, CopyFile;
      FileCopiesBack(linked, f, proto, tables.memory);
    }

    lemma CommittedImports(proto: FileProto, linked: FileDescriptor, f: FileDescriptor, s: Snapshot, start: Snapshot,
                           last: Snapshot)
      requires FileDeclared(s.now, start.now, proto, file) && start.now.memory[file] == f
      requires Extends(start.now.memory, last.now.memory) && tables.memory == last.now.memory[file := linked]
      requires linked.name == f.name && linked.dependencies == f.dependencies
      requires ImportsFound(s.now, file, proto, f, false) && ImportsSpelled(s.now, proto)
      ensures |linked.dependencies| == |proto.dependencies|
      ensures forall i :: 0 <= i < |proto.dependencies| ==>
                linked.dependencies[i].Some? && linked.dependencies[i].value in tables.memory
                && tables.memory[linked.dependencies[i].value].name == proto.dependencies[i]
    {
      forall i | 0 <= i < |proto.dependencies|
        ensures linked.dependencies[i].Some? && linked.dependencies[i].value in tables.memory
                && tables.memory[linked.dependencies[i].value].name == proto.dependencies[i]
      {
        var n := CStr(proto.dependencies[i]);
        assert IsImport(s.now, file, proto.name, f.dependencies[i].value, proto.dependencies[i]);
        assert proto.dependencies[i] in proto.dependencies;
        if n != CStr(proto.name) {
          assert start.now.files[n] == s.now.files[n];
        }
      }
    }
  }
}
