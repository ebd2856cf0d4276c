/** DescriptorPool::Tables: the transactional symbol store of a descriptor pool. */
module SymbolTables {
  import opened Wrappers
  import opened Names
  import opened Descriptors

  /** A map entry together with the address of the string that serves as its key. */
  datatype Entry<T> = Entry(key: Addr, value: T)

  /** Everything that a checkpoint protects. Names are keys as C strings: two names with the same front part up to a
      NUL are the same key. The logs of names hold pointers to the strings that are the keys; `order` lists the files
      in the order in which they were added. */
  datatype Contents = Contents(
    symbols: map<string, Entry<Symbol>>,
    files: map<string, Entry<Addr>>,
    order: seq<Addr>,
    extensions: map<(Ptr, int), Ptr>,
    symbolLog: seq<Entry<string>>,
    fileLog: seq<Entry<string>>,
    extensionLog: seq<(Ptr, int)>,
    strings: seq<Addr>,
    messages: seq<Addr>,
    fileTables: seq<Addr>,
    allocations: seq<Addr>,
    memory: map<Addr, FileDescriptor>)

  datatype CheckPoint = CheckPoint(
    strings: nat, messages: nat, fileTables: nat, allocations: nat,
    pendingSymbols: nat, pendingFiles: nat, pendingExtensions: nat)

  function Elements<T>(s: seq<T>): set<T> {
    set x | x in s
  }

  /** The names that a log points to. */
  function LoggedNames(log: seq<Entry<string>>): set<string> {
    set e | e in log :: e.value
  }

  /** A sequence without its last elements. */
  function Shorter<T>(s: seq<T>, drop: nat): seq<T> {
    if drop <= |s| then s[..|s| - drop] else []
  }

  /** The constructor of CheckPoint: the current sizes. */
  function Mark(c: Contents): CheckPoint {
    CheckPoint(|c.strings|, |c.messages|, |c.fileTables|, |c.allocations|,
               |c.symbolLog|, |c.fileLog|, |c.extensionLog|)
  }

  predicate AtOrBefore(p: CheckPoint, q: CheckPoint) {
    && p.strings <= q.strings && p.messages <= q.messages
    && p.fileTables <= q.fileTables && p.allocations <= q.allocations
    && p.pendingSymbols <= q.pendingSymbols && p.pendingFiles <= q.pendingFiles
    && p.pendingExtensions <= q.pendingExtensions
  }

  /** The contents with everything after a checkpoint taken away. */
  ghost function Undo(c: Contents, p: CheckPoint): Contents
    requires AtOrBefore(p, Mark(c))
  {
    Contents(
      c.symbols - LoggedNames(c.symbolLog[p.pendingSymbols..]),
      c.files - LoggedNames(c.fileLog[p.pendingFiles..]),
      Shorter(c.order, |c.fileLog| - p.pendingFiles),
      c.extensions - Elements(c.extensionLog[p.pendingExtensions..]),
      c.symbolLog[..p.pendingSymbols], c.fileLog[..p.pendingFiles], c.extensionLog[..p.pendingExtensions],
      c.strings[..p.strings], c.messages[..p.messages], c.fileTables[..p.fileTables],
      c.allocations[..p.allocations],
      c.memory - Elements(c.allocations[p.allocations..]))
  }

  lemma UndoMark(c: Contents)
    ensures Undo(c, Mark(c)) == c
  {
  }

  /** Rolling back in two steps is rolling back to the earlier checkpoint at once. */
  lemma UndoTwice(c: Contents, p: CheckPoint, q: CheckPoint)
    requires AtOrBefore(p, q) && AtOrBefore(q, Mark(c))
    ensures AtOrBefore(p, Mark(Undo(c, q))) && Undo(Undo(c, q), p) == Undo(c, p)
  {
    hide Elements, LoggedNames;
    PrefixTwice(c.symbolLog, p.pendingSymbols, q.pendingSymbols);
    PrefixTwice(c.fileLog, p.pendingFiles, q.pendingFiles);
    PrefixTwice(c.extensionLog, p.pendingExtensions, q.pendingExtensions);
    PrefixTwice(c.strings, p.strings, q.strings);
    PrefixTwice(c.messages, p.messages, q.messages);
    PrefixTwice(c.fileTables, p.fileTables, q.fileTables);
    PrefixTwice(c.allocations, p.allocations, q.allocations);
    SuffixNames(c.symbolLog, p.pendingSymbols, q.pendingSymbols);
    SuffixNames(c.fileLog, p.pendingFiles, q.pendingFiles);
    SuffixElements(c.extensionLog, p.pendingExtensions, q.pendingExtensions);
    SuffixElements(c.allocations, p.allocations, q.allocations);
    var d := Undo(c, q);
    RemoveTwice(c.symbols, LoggedNames(c.symbolLog[q.pendingSymbols..]), LoggedNames(d.symbolLog[p.pendingSymbols..]));
    RemoveTwice(c.files, LoggedNames(c.fileLog[q.pendingFiles..]), LoggedNames(d.fileLog[p.pendingFiles..]));
    RemoveTwice(c.extensions, Elements(c.extensionLog[q.pendingExtensions..]),
                Elements(d.extensionLog[p.pendingExtensions..]));
    RemoveTwice(c.memory, Elements(c.allocations[q.allocations..]), Elements(d.allocations[p.allocations..]));
  }

  lemma PrefixTwice<T>(s: seq<T>, p: nat, q: nat)
    requires p <= q <= |s|
    ensures s[..q][..p] == s[..p]
  {
  }

  lemma SuffixElements<T>(s: seq<T>, p: nat, q: nat)
    requires p <= q <= |s|
    ensures Elements(s[q..]) + Elements(s[..q][p..]) == Elements(s[p..])
  {
  }

  lemma SuffixNames(s: seq<Entry<string>>, p: nat, q: nat)
    requires p <= q <= |s|
    ensures LoggedNames(s[q..]) + LoggedNames(s[..q][p..]) == LoggedNames(s[p..])
  {
    assert s[p..] == s[..q][p..] + s[q..];
  }

  lemma RemoveTwice<K, V>(m: map<K, V>, a: set<K>, b: set<K>)
    ensures (m - a) - b == m - (a + b)
  {
  }

  // ---------- the invariant ----------

  /** Each open checkpoint would bring back exactly what was saved when it was opened. */
  ghost predicate Chain(c: Contents, checkpoints: seq<CheckPoint>, saved: seq<Contents>) {
    && |checkpoints| == |saved|
    && (forall i :: 0 <= i < |checkpoints| ==> AtOrBefore(checkpoints[i], Mark(c)))
    && (forall i :: 0 <= i < |checkpoints| ==> Undo(c, checkpoints[i]) == saved[i])
    && (forall i, j :: 0 <= i < j < |checkpoints| ==> AtOrBefore(checkpoints[i], checkpoints[j]))
  }

  /** Every key and every value in the maps refers to storage that the tables own. */
  ghost predicate Live(c: Contents) {
    && (forall k :: k in c.symbols ==>
          c.symbols[k].key in c.strings && c.symbols[k].value.descriptor.block in c.allocations
          && c.symbols[k].value.file in c.memory && CStr(c.symbols[k].value.fullName) == k)
    && (forall k :: k in c.files ==>
          c.files[k].key in c.strings && c.files[k].value in c.memory && CStr(c.memory[c.files[k].value].name) == k)
    && (forall e :: e in c.extensions ==> e.0.block in c.allocations && c.extensions[e].block in c.allocations)
    && (forall a :: a in c.memory ==> a in c.allocations)
    && (forall a :: a in c.memory ==> ImportsLive(a, c.memory[a], c.memory.Keys))
    && LogsLive(c)
  }

  /** The names in the logs can be read. */
  ghost predicate LogsLive(c: Contents) {
    (forall e :: e in c.symbolLog ==> e.key in c.strings) && (forall e :: e in c.fileLog ==> e.key in c.strings)
  }

  /** Imports of a file point at files that still exist, allocated no later than the importing file. */
  predicate ImportsLive(a: Addr, f: FileDescriptor, alive: set<Addr>) {
    forall d :: d in f.dependencies && d.Some? ==> d.value in alive && d.value <= a
  }

  ghost function Owned(c: Contents): set<Addr> {
    Elements(c.strings) + Elements(c.messages) + Elements(c.fileTables) + Elements(c.allocations)
  }

  predicate SplitsAt(v: seq<Addr>, n: nat, bound: Addr) {
    n <= |v|
    && (forall i :: 0 <= i < n ==> v[i] < bound)
    && (forall i :: n <= i < |v| ==> v[i] >= bound)
  }

  /** Storage older than a checkpoint lies below its bound, younger storage above it. */
  ghost predicate Ages(c: Contents, p: CheckPoint, bound: Addr) {
    && SplitsAt(c.strings, p.strings, bound)
    && SplitsAt(c.messages, p.messages, bound)
    && SplitsAt(c.fileTables, p.fileTables, bound)
    && SplitsAt(c.allocations, p.allocations, bound)
  }

  /** Live storage and freed storage are disjoint, and addresses are handed out in increasing order. */
  ghost predicate Storage(c: Contents, checkpoints: seq<CheckPoint>, bounds: seq<Addr>, freed: set<Addr>, next: Addr) {
    && (forall a :: a in Owned(c) ==> a < next && a !in freed)
    && (forall a :: a in freed ==> a < next)
    && |bounds| == |checkpoints|
    && (forall i :: 0 <= i < |checkpoints| ==> bounds[i] <= next)
    && (forall i :: 0 <= i < |checkpoints| ==> Ages(c, checkpoints[i], bounds[i]))
  }

  /** The ghost history of the tables: what each open checkpoint saved and which storage is gone. */
  datatype History = History(saved: seq<Contents>, bounds: seq<Addr>, freed: set<Addr>)

  ghost predicate Consistent(c: Contents, checkpoints: seq<CheckPoint>, h: History, next: Addr) {
    && Chain(c, checkpoints, h.saved)
    && Live(c)
    && (forall i :: 0 <= i < |h.saved| ==> Live(h.saved[i]))
    && Storage(c, checkpoints, h.bounds, h.freed, next)
  }

  /** An operation that keeps what every checkpoint would bring back keeps the tables consistent. */
  lemma Reassemble(c: Contents, d: Contents, ps: seq<CheckPoint>, h: History, next: Addr, next': Addr)
    requires Consistent(c, ps, h, next) && Live(d)
    requires (next == next' && Owned(d) == Owned(c)) || (next' == next + 1 && Owned(d) == Owned(c) + {next})
    requires forall i :: 0 <= i < |ps| ==> KeepsCheckPoint(c, d, ps[i], h.bounds[i])
    ensures Consistent(d, ps, h, next')
  {
  }

  ghost predicate KeepsCheckPoint(c: Contents, d: Contents, p: CheckPoint, bound: Addr) {
    && AtOrBefore(p, Mark(c)) && AtOrBefore(p, Mark(d))
    && Undo(d, p) == Undo(c, p)
    && Ages(d, p, bound)
  }

  // ---------- the effect of each operation on the contents ----------

  function WithSymbol(c: Contents, name: string, e: Entry<Symbol>): Contents {
    c.(symbols := c.symbols[name := e], symbolLog := c.symbolLog + [Entry(e.key, name)])
  }

  function WithFile(c: Contents, name: string, e: Entry<Addr>): Contents {
    c.(files := c.files[name := e], order := c.order + [e.value], fileLog := c.fileLog + [Entry(e.key, name)])
  }

  function WithExtension(c: Contents, key: (Ptr, int), field: Ptr): Contents {
    c.(extensions := c.extensions[key := field], extensionLog := c.extensionLog + [key])
  }

  lemma AppendSuffix<T>(s: seq<T>, t: seq<T>, n: nat)
    requires n <= |s| && s <= t
    ensures t[..n] == s[..n] && t[n..] == s[n..] + t[|s|..]
  {
  }

  /** An insertion is logged exactly when the key is new, so undoing the log undoes the insertion. */
  lemma RemoveLogged<K, V>(m: map<K, V>, log: seq<K>, k: K, v: V, n: nat)
    requires k !in m && n <= |log|
    ensures m[k := v] - Elements((log + [k])[n..]) == m - Elements(log[n..])
    ensures (log + [k])[..n] == log[..n]
  {
    AppendSuffix(log, log + [k], n);
    assert Elements((log + [k])[n..]) == Elements(log[n..]) + {k};
  }

  lemma RemoveLoggedName<V>(m: map<string, V>, log: seq<Entry<string>>, k: Entry<string>, v: V, n: nat)
    requires k.value !in m && n <= |log|
    ensures m[k.value := v] - LoggedNames((log + [k])[n..]) == m - LoggedNames(log[n..])
    ensures (log + [k])[..n] == log[..n]
  {
    AppendSuffix(log, log + [k], n);
    assert LoggedNames((log + [k])[n..]) == LoggedNames(log[n..]) + {k.value};
  }

  lemma SymbolKept(c: Contents, name: string, e: Entry<Symbol>, p: CheckPoint, bound: Addr)
    requires AtOrBefore(p, Mark(c)) && Ages(c, p, bound) && name !in c.symbols
    ensures KeepsCheckPoint(c, WithSymbol(c, name, e), p, bound)
  {
    hide LoggedNames, SplitsAt;
    RemoveLoggedName(c.symbols, c.symbolLog, Entry(e.key, name), e, p.pendingSymbols);
  }

  lemma SymbolLive(c: Contents, name: string, e: Entry<Symbol>)
    requires Live(c) && CStr(e.value.fullName) == name
    requires e.key in c.strings && e.value.descriptor.block in c.allocations && e.value.file in c.memory
    ensures Live(WithSymbol(c, name, e)) && Owned(WithSymbol(c, name, e)) == Owned(c)
  {
    hide CStr, ImportsLive, Elements;
  }

  lemma AddSymbolConsistent(c: Contents, ps: seq<CheckPoint>, h: History, next: Addr, name: string, e: Entry<Symbol>)
    requires Consistent(c, ps, h, next) && name !in c.symbols
    requires e.key in c.strings && e.value.descriptor.block in c.allocations && e.value.file in c.memory
    requires CStr(e.value.fullName) == name
    ensures Consistent(WithSymbol(c, name, e), ps, h, next)
  {
    hide Live, Undo, Owned, KeepsCheckPoint, SplitsAt, CStr, WithSymbol;
    SymbolLive(c, name, e);
    forall i | 0 <= i < |ps| ensures KeepsCheckPoint(c, WithSymbol(c, name, e), ps[i], h.bounds[i]) {
      assert AtOrBefore(ps[i], Mark(c)) && Ages(c, ps[i], h.bounds[i]);
      SymbolKept(c, name, e, ps[i], h.bounds[i]);
    }
    Reassemble(c, WithSymbol(c, name, e), ps, h, next, next);
  }

  lemma FileKept(c: Contents, name: string, e: Entry<Addr>, p: CheckPoint, bound: Addr)
    requires AtOrBefore(p, Mark(c)) && Ages(c, p, bound) && name !in c.files
    ensures KeepsCheckPoint(c, WithFile(c, name, e), p, bound)
  {
    hide LoggedNames, SplitsAt;
    RemoveLoggedName(c.files, c.fileLog, Entry(e.key, name), e, p.pendingFiles);
  }

  lemma FileLive(c: Contents, name: string, e: Entry<Addr>)
    requires Live(c)
    requires e.key in c.strings && e.value in c.memory && CStr(c.memory[e.value].name) == name
    ensures Live(WithFile(c, name, e)) && Owned(WithFile(c, name, e)) == Owned(c)
  {
    hide CStr, ImportsLive, Elements;
  }

  lemma AddFileConsistent(c: Contents, ps: seq<CheckPoint>, h: History, next: Addr, name: string, e: Entry<Addr>)
    requires Consistent(c, ps, h, next) && name !in c.files
    requires e.key in c.strings && e.value in c.memory && CStr(c.memory[e.value].name) == name
    ensures Consistent(WithFile(c, name, e), ps, h, next)
  {
    hide Live, Undo, Owned, KeepsCheckPoint, SplitsAt, CStr, WithFile;
    FileLive(c, name, e);
    forall i | 0 <= i < |ps| ensures KeepsCheckPoint(c, WithFile(c, name, e), ps[i], h.bounds[i]) {
      assert AtOrBefore(ps[i], Mark(c)) && Ages(c, ps[i], h.bounds[i]);
      FileKept(c, name, e, ps[i], h.bounds[i]);
    }
    Reassemble(c, WithFile(c, name, e), ps, h, next, next);
  }

  lemma ExtensionKept(c: Contents, key: (Ptr, int), field: Ptr, p: CheckPoint, bound: Addr)
    requires AtOrBefore(p, Mark(c)) && Ages(c, p, bound) && key !in c.extensions
    ensures KeepsCheckPoint(c, WithExtension(c, key, field), p, bound)
  {
    hide LoggedNames, SplitsAt;
    RemoveLogged(c.extensions, c.extensionLog, key, field, p.pendingExtensions);
  }

  lemma ExtensionLive(c: Contents, key: (Ptr, int), field: Ptr)
    requires Live(c) && key.0.block in c.allocations && field.block in c.allocations
    ensures Live(WithExtension(c, key, field)) && Owned(WithExtension(c, key, field)) == Owned(c)
  {
    hide CStr, ImportsLive, Elements;
  }

  lemma AddExtensionConsistent(c: Contents, ps: seq<CheckPoint>, h: History, next: Addr, key: (Ptr, int), field: Ptr)
    requires Consistent(c, ps, h, next) && key !in c.extensions
    requires key.0.block in c.allocations && field.block in c.allocations
    ensures Consistent(WithExtension(c, key, field), ps, h, next)
  {
    hide Live, Undo, Owned, KeepsCheckPoint, SplitsAt, WithExtension;
    ExtensionLive(c, key, field);
    forall i | 0 <= i < |ps| ensures KeepsCheckPoint(c, WithExtension(c, key, field), ps[i], h.bounds[i]) {
      assert AtOrBefore(ps[i], Mark(c)) && Ages(c, ps[i], h.bounds[i]);
      ExtensionKept(c, key, field, ps[i], h.bounds[i]);
    }
    Reassemble(c, WithExtension(c, key, field), ps, h, next, next);
  }

  lemma SplitAppend(v: seq<Addr>, n: nat, bound: Addr, a: Addr)
    requires SplitsAt(v, n, bound) && a >= bound
    ensures SplitsAt(v + [a], n, bound)
  {
  }

  lemma StringKept(c: Contents, d: Contents, p: CheckPoint, bound: Addr, a: Addr)
    requires AtOrBefore(p, Mark(c)) && Ages(c, p, bound) && a >= bound
    requires d == c.(strings := c.strings + [a])
    ensures KeepsCheckPoint(c, d, p, bound)
  {
  }

  lemma StringLive(c: Contents, a: Addr)
    requires Live(c)
    ensures Live(c.(strings := c.strings + [a]))
    ensures Owned(c.(strings := c.strings + [a])) == Owned(c) + {a}
  {
  }

  lemma AllocateStringConsistent(c: Contents, ps: seq<CheckPoint>, h: History, next: Addr)
    requires Consistent(c, ps, h, next)
    ensures Consistent(c.(strings := c.strings + [next]), ps, h, next + 1)
  {
    hide Live, Undo, Owned, KeepsCheckPoint, SplitsAt;
    var d := c.(strings := c.strings + [next]);
    StringLive(c, next);
    forall i | 0 <= i < |ps| ensures KeepsCheckPoint(c, d, ps[i], h.bounds[i]) {
      assert AtOrBefore(ps[i], Mark(c)) && Ages(c, ps[i], h.bounds[i]);
      StringKept(c, d, ps[i], h.bounds[i], next);
    }
    Reassemble(c, d, ps, h, next, next + 1);
  }

  lemma MessageKept(c: Contents, d: Contents, p: CheckPoint, bound: Addr, a: Addr)
    requires AtOrBefore(p, Mark(c)) && Ages(c, p, bound) && a >= bound
    requires d == c.(messages := c.messages + [a])
    ensures KeepsCheckPoint(c, d, p, bound)
  {
  }

  lemma MessageLive(c: Contents, a: Addr)
    requires Live(c)
    ensures Live(c.(messages := c.messages + [a]))
    ensures Owned(c.(messages := c.messages + [a])) == Owned(c) + {a}
  {
  }

  lemma AllocateMessageConsistent(c: Contents, ps: seq<CheckPoint>, h: History, next: Addr)
    requires Consistent(c, ps, h, next)
    ensures Consistent(c.(messages := c.messages + [next]), ps, h, next + 1)
  {
    hide Live, Undo, Owned, KeepsCheckPoint, SplitsAt;
    var d := c.(messages := c.messages + [next]);
    MessageLive(c, next);
    forall i | 0 <= i < |ps| ensures KeepsCheckPoint(c, d, ps[i], h.bounds[i]) {
      assert AtOrBefore(ps[i], Mark(c)) && Ages(c, ps[i], h.bounds[i]);
      MessageKept(c, d, ps[i], h.bounds[i], next);
    }
    Reassemble(c, d, ps, h, next, next + 1);
  }

  lemma TablesKept(c: Contents, d: Contents, p: CheckPoint, bound: Addr, a: Addr)
    requires AtOrBefore(p, Mark(c)) && Ages(c, p, bound) && a >= bound
    requires d == c.(fileTables := c.fileTables + [a])
    ensures KeepsCheckPoint(c, d, p, bound)
  {
  }

  lemma TablesLive(c: Contents, a: Addr)
    requires Live(c)
    ensures Live(c.(fileTables := c.fileTables + [a]))
    ensures Owned(c.(fileTables := c.fileTables + [a])) == Owned(c) + {a}
  {
  }

  lemma AllocateTablesConsistent(c: Contents, ps: seq<CheckPoint>, h: History, next: Addr)
    requires Consistent(c, ps, h, next)
    ensures Consistent(c.(fileTables := c.fileTables + [next]), ps, h, next + 1)
  {
    hide Live, Undo, Owned, KeepsCheckPoint, SplitsAt;
    var d := c.(fileTables := c.fileTables + [next]);
    TablesLive(c, next);
    forall i | 0 <= i < |ps| ensures KeepsCheckPoint(c, d, ps[i], h.bounds[i]) {
      assert AtOrBefore(ps[i], Mark(c)) && Ages(c, ps[i], h.bounds[i]);
      TablesKept(c, d, ps[i], h.bounds[i], next);
    }
    Reassemble(c, d, ps, h, next, next + 1);
  }

  lemma BlockUndo(c: Contents, d: Contents, p: CheckPoint, bound: Addr, a: Addr)
    requires AtOrBefore(p, Mark(c)) && Ages(c, p, bound) && a >= bound
    requires d == c.(allocations := c.allocations + [a], memory := d.memory)
    requires a !in c.memory && d.memory - {a} == c.memory
    ensures KeepsCheckPoint(c, d, p, bound)
  {
    AppendSuffix(c.allocations, d.allocations, p.allocations);
    SplitAppend(c.allocations, p.allocations, bound, a);
    var young := Elements(c.allocations[p.allocations..]);
    assert Elements(d.allocations[p.allocations..]) == young + {a};
    assert d.memory - (young + {a}) == (d.memory - {a}) - young;
  }

  lemma BlockLive(c: Contents, d: Contents, a: Addr)
    requires Live(c)
    requires d == c.(allocations := c.allocations + [a], memory := d.memory)
    requires a !in c.memory && d.memory - {a} == c.memory
    requires a in d.memory ==> d.memory[a].dependencies == []
    ensures Live(d)
  {
    assert forall b :: b in c.allocations ==> b in d.allocations;
    forall b | b in d.memory ensures b in d.allocations && ImportsLive(b, d.memory[b], d.memory.Keys) {
      if b != a {
        assert b in d.memory - {a};
        assert d.memory[b] == c.memory[b];
        assert ImportsLive(b, c.memory[b], c.memory.Keys);
      }
      assert a in d.allocations by { assert d.allocations[|c.allocations|] == a; }
    }
    forall b | b in c.memory ensures b in d.memory && d.memory[b] == c.memory[b] {
      assert b in d.memory - {a};
    }
  }

  lemma NextIsNew(c: Contents, ps: seq<CheckPoint>, h: History, next: Addr)
    requires Consistent(c, ps, h, next)
    ensures next !in c.memory && next !in c.allocations && next !in c.strings
    ensures forall i :: 0 <= i < |ps| ==> h.bounds[i] <= next
  {
    assert forall b :: b in c.memory ==> b in Owned(c);
    assert next !in Owned(c);
  }

  /** A new block, holding a file descriptor or anything else. */
  lemma AllocateBlockConsistent(c: Contents, ps: seq<CheckPoint>, h: History, next: Addr, m: map<Addr, FileDescriptor>)
    requires Consistent(c, ps, h, next)
    requires m == c.memory || exists f: FileDescriptor :: m == c.memory[next := f] && f.dependencies == []
    ensures next !in c.memory && Consistent(c.(allocations := c.allocations + [next], memory := m), ps, h, next + 1)
  {
    NextIsNew(c, ps, h, next);
    var d := c.(allocations := c.allocations + [next], memory := m);
    assert Owned(d) == Owned(c) + {next};
    assert m - {next} == c.memory;
    BlockLive(c, d, next);
    BlockKeeps(c, d, ps, h, next);
    Reassemble(c, d, ps, h, next, next + 1);
  }

  lemma BlockKeeps(c: Contents, d: Contents, ps: seq<CheckPoint>, h: History, next: Addr)
    requires Consistent(c, ps, h, next)
    requires d == c.(allocations := c.allocations + [next], memory := d.memory)
    requires next !in c.memory && d.memory - {next} == c.memory
    ensures forall i :: 0 <= i < |ps| ==> KeepsCheckPoint(c, d, ps[i], h.bounds[i])
  {
    forall i | 0 <= i < |ps| ensures KeepsCheckPoint(c, d, ps[i], h.bounds[i]) {
      assert AtOrBefore(ps[i], Mark(c)) && Ages(c, ps[i], h.bounds[i]);
      BlockUndo(c, d, ps[i], h.bounds[i], next);
    }
  }

  lemma UpdateKeeps(c: Contents, d: Contents, p: CheckPoint, bound: Addr, last: CheckPoint, lastBound: Addr, a: Addr)
    requires AtOrBefore(p, last) && AtOrBefore(last, Mark(c)) && Ages(c, p, bound)
    requires SplitsAt(c.allocations, last.allocations, lastBound) && a >= lastBound && a in c.allocations
    requires d == c.(memory := d.memory) && d.memory - {a} == c.memory - {a}
    ensures KeepsCheckPoint(c, d, p, bound)
  {
    var k :| 0 <= k < |c.allocations| && c.allocations[k] == a;
    var young := Elements(c.allocations[p.allocations..]);
    assert c.allocations[p.allocations..][k - p.allocations] == a;
    assert young == {a} + young;
    assert d.memory - ({a} + young) == (d.memory - {a}) - young;
    assert c.memory - ({a} + young) == (c.memory - {a}) - young;
  }

  lemma UpdateLive(c: Contents, a: Addr, f: FileDescriptor)
    requires Live(c)
    requires a in c.memory && f.name == c.memory[a].name && ImportsLive(a, f, c.memory.Keys)
    ensures Live(c.(memory := c.memory[a := f]))
  {
  }

  lemma UpdateFileConsistent(c: Contents, ps: seq<CheckPoint>, h: History, next: Addr, a: Addr, f: FileDescriptor)
    requires Consistent(c, ps, h, next)
    requires a in c.memory && f.name == c.memory[a].name && ImportsLive(a, f, c.memory.Keys)
    requires |ps| > 0 ==> a >= h.bounds[|ps| - 1]
    ensures Consistent(c.(memory := c.memory[a := f]), ps, h, next)
  {
    var d := c.(memory := c.memory[a := f]);
    assert Owned(d) == Owned(c);
    UpdateLive(c, a, f);
    UpdateKeepsAll(c, d, ps, h, next, a);
    Reassemble(c, d, ps, h, next, next);
  }

  lemma UpdateKeepsAll(c: Contents, d: Contents, ps: seq<CheckPoint>, h: History, next: Addr, a: Addr)
    requires Consistent(c, ps, h, next) && a in c.memory
    requires d == c.(memory := d.memory) && d.memory - {a} == c.memory - {a}
    requires |ps| > 0 ==> a >= h.bounds[|ps| - 1]
    ensures forall i :: 0 <= i < |ps| ==> KeepsCheckPoint(c, d, ps[i], h.bounds[i])
  {
    forall i | 0 <= i < |ps| ensures KeepsCheckPoint(c, d, ps[i], h.bounds[i]) {
      var n := |ps| - 1;
      assert AtOrBefore(ps[i], Mark(c)) && Ages(c, ps[i], h.bounds[i]) && Ages(c, ps[n], h.bounds[n]);
      assert AtOrBefore(ps[i], ps[n]);
      UpdateKeeps(c, d, ps[i], h.bounds[i], ps[n], h.bounds[n], a);
    }
  }

  lemma AllBelow(v: seq<Addr>, s: set<Addr>, next: Addr)
    requires Elements(v) <= s && forall a :: a in s ==> a < next
    ensures SplitsAt(v, |v|, next)
  {
    forall i | 0 <= i < |v| ensures v[i] < next { assert v[i] in Elements(v); }
  }

  lemma AddCheckpointConsistent(c: Contents, ps: seq<CheckPoint>, h: History, next: Addr)
    requires Consistent(c, ps, h, next)
    ensures Consistent(c, ps + [Mark(c)], h.(saved := h.saved + [c], bounds := h.bounds + [next]), next)
  {
    UndoMark(c);
    AllBelow(c.strings, Owned(c), next);
    AllBelow(c.messages, Owned(c), next);
    AllBelow(c.fileTables, Owned(c), next);
    AllBelow(c.allocations, Owned(c), next);
  }

  /** What clearing a checkpoint keeps: everything but the logs, and the logs too while a checkpoint is open. */
  function Cleared(c: Contents, outermost: bool): Contents {
    if outermost then c.(symbolLog := [], fileLog := [], extensionLog := []) else c
  }

  lemma ClearConsistent(c: Contents, ps: seq<CheckPoint>, h: History, next: Addr)
    requires Consistent(c, ps, h, next) && |ps| > 0
    ensures Consistent(Cleared(c, |ps| == 1), ps[..|ps| - 1], Popped(h), next)
  {
    hide Undo, CStr, ImportsLive, Elements, SplitsAt;
    var d := Cleared(c, |ps| == 1);
    assert Owned(d) == Owned(c);
    assert Live(d);
  }

  ghost function Popped(h: History): History {
    if |h.saved| > 0 && |h.bounds| > 0
    then History(h.saved[..|h.saved| - 1], h.bounds[..|h.bounds| - 1], h.freed) else h
  }

  lemma UndoOwned(c: Contents, p: CheckPoint, bound: Addr)
    requires AtOrBefore(p, Mark(c)) && Ages(c, p, bound)
    ensures Owned(Undo(c, p)) <= Owned(c)
    ensures forall a :: a in Owned(Undo(c, p)) <==> a in Owned(c) && a < bound
  {
  }

  lemma RollbackConsistent(c: Contents, ps: seq<CheckPoint>, h: History, next: Addr)
    requires Consistent(c, ps, h, next) && |ps| > 0
    ensures |ps| == |h.saved| == |h.bounds| && AtOrBefore(ps[|ps| - 1], Mark(c))
    ensures var n := |ps| - 1;
            var d := Undo(c, ps[n]);
            d == h.saved[n]
            && Consistent(d, ps[..n], Popped(h).(freed := h.freed + (Owned(c) - Owned(d))), next)
  {
    hide Live, Elements, LoggedNames;
    var n := |ps| - 1;
    var d := Undo(c, ps[n]);
    UndoOwned(c, ps[n], h.bounds[n]);
    forall i | 0 <= i < n
      ensures AtOrBefore(ps[i], Mark(d)) && Undo(d, ps[i]) == h.saved[i] && Ages(d, ps[i], h.bounds[i])
    {
      assert AtOrBefore(ps[i], ps[n]) && Ages(c, ps[i], h.bounds[i]);
      UndoTwice(c, ps[i], ps[n]);
    }
  }

  lemma NamesReadable(c: Contents, ps: seq<CheckPoint>, h: History, next: Addr)
    requires Consistent(c, ps, h, next)
    ensures LogsLive(c)
  {
  }

  class Tables {
    // The undo logs, the checkpoint stack and the bookkeeping of a public API call.
    var pendingFiles: seq<string>
    var knownBadFiles: set<string>
    var knownBadSymbols: set<string>

    var strings: seq<Addr>
    var messages: seq<Addr>
    var fileTables: seq<Addr>
    var allocations: seq<Addr>

    var symbolsByName: map<string, Entry<Symbol>>
    var filesByName: map<string, Entry<Addr>>
    var extensions: map<(Ptr, int), Ptr>

    var checkpoints: seq<CheckPoint>
    var symbolsAfterCheckpoint: seq<Entry<string>>
    var filesAfterCheckpoint: seq<Entry<string>>
    var extensionsAfterCheckpoint: seq<(Ptr, int)>

    // The heap cells of file descriptors and the next address that the allocator hands out.
    var memory: map<Addr, FileDescriptor>
    var next: Addr

    ghost var history: History
    ghost var order: seq<Addr>

    ghost function Now(): Contents
      reads this
    {
      Contents(symbolsByName, filesByName, order, extensions,
               symbolsAfterCheckpoint, filesAfterCheckpoint, extensionsAfterCheckpoint,
               strings, messages, fileTables, allocations, memory)
    }

    ghost predicate Valid()
      reads this
    {
      Consistent(Now(), checkpoints, history, next)
    }

    constructor ()
      ensures Valid()
      ensures Now() == Contents(map[], map[], [], map[], [], [], [], [], [], [], [], map[])
      ensures checkpoints == [] && pendingFiles == [] && knownBadFiles == {} && knownBadSymbols == {}
    {
      pendingFiles, knownBadFiles, knownBadSymbols := [], {}, {};
      strings, messages, fileTables, allocations := [], [], [], [];
      symbolsByName, filesByName, extensions := map[], map[], map[];
      checkpoints, symbolsAfterCheckpoint, filesAfterCheckpoint, extensionsAfterCheckpoint := [], [], [], [];
      memory, next := map[], 0;
      history := History([], [], {});
      order := [];
    }

    /** The checkpoint stack, what it would bring back, and the per-call bookkeeping are as before. */
    twostate predicate SameTransaction()
      reads this
    {
      && checkpoints == old(checkpoints) && history == old(history)
      && SameCall()
    }

    twostate predicate SameCall()
      reads this
    {
      pendingFiles == old(pendingFiles) && knownBadFiles == old(knownBadFiles)
      && knownBadSymbols == old(knownBadSymbols)
    }

    // ---------- checkpoints ----------

    method AddCheckpoint()
      requires Valid()
      modifies this
      ensures Valid() && Now() == old(Now()) && SameCall() && next == old(next)
      ensures checkpoints == old(checkpoints) + [Mark(Now())]
      ensures history == History(old(history.saved) + [Now()], old(history.bounds) + [next], old(history.freed))
      ensures |checkpoints| == |history.saved| == |history.bounds|
    {
      AddCheckpointConsistent(Now(), checkpoints, history, next);
      history := history.(saved := history.saved + [Now()], bounds := history.bounds + [next]);
      checkpoints := checkpoints + [CheckPoint(|strings|, |messages|, |fileTables|, |allocations|,
                                               |symbolsAfterCheckpoint|, |filesAfterCheckpoint|,
                                               |extensionsAfterCheckpoint|)];
    }

    /** Clearing keeps every addition; the undo logs go only with the outermost checkpoint. */
    method ClearLastCheckpoint()
      requires Valid() && |checkpoints| > 0
      modifies this
      ensures Valid() && SameCall() && next == old(next)
      ensures checkpoints == old(checkpoints[..|checkpoints| - 1])
      ensures history == Popped(old(history))
      ensures Now() == Cleared(old(Now()), |old(checkpoints)| == 1)
    {
      hide Consistent, Popped;
      ClearConsistent(Now(), checkpoints, history, next);
      history := Popped(history);
      checkpoints := checkpoints[..|checkpoints| - 1];
      if checkpoints == [] {
        ClearLogs();
      }
    }

    method ClearLogs()
      modifies `symbolsAfterCheckpoint, `filesAfterCheckpoint, `extensionsAfterCheckpoint
      ensures Now() == Cleared(old(Now()), true)
    {
      symbolsAfterCheckpoint := [];
      filesAfterCheckpoint := [];
      extensionsAfterCheckpoint := [];
    }

    /** The text of a string that the tables own, read through a pointer to it. */
    function TextAt(e: Entry<string>): string
      requires e.key in strings
      reads `strings
    {
      e.value
    }

    /** Erases from the maps every key that was logged after a checkpoint. The names are read through the logs, so
        their strings must still be there. */
    method EraseSince(p: CheckPoint)
      requires AtOrBefore(p, Mark(Now())) && LogsLive(Now())
      modifies `symbolsByName, `filesByName, `extensions
      ensures symbolsByName == old(symbolsByName) - LoggedNames(symbolsAfterCheckpoint[p.pendingSymbols..])
      ensures filesByName == old(filesByName) - LoggedNames(filesAfterCheckpoint[p.pendingFiles..])
      ensures extensions == old(extensions) - Elements(extensionsAfterCheckpoint[p.pendingExtensions..])
    {
      hide Elements, LoggedNames;
      ghost var before := Now();
      RemoveNoName(before.symbols, before.symbolLog, p.pendingSymbols);
      RemoveNoName(before.files, before.fileLog, p.pendingFiles);
      RemoveNone(before.extensions, before.extensionLog, p.pendingExtensions);
      var i := p.pendingSymbols;
      while i < |symbolsAfterCheckpoint|
        invariant p.pendingSymbols <= i <= |symbolsAfterCheckpoint|
        invariant symbolsByName == before.symbols - LoggedNames(before.symbolLog[p.pendingSymbols..i])
        modifies `symbolsByName
      {
        RemoveOneName(before.symbols, before.symbolLog, p.pendingSymbols, i);
        symbolsByName := symbolsByName - {TextAt(symbolsAfterCheckpoint[i])};
        i := i + 1;
      }
      i := p.pendingFiles;
      while i < |filesAfterCheckpoint|
        invariant p.pendingFiles <= i <= |filesAfterCheckpoint|
        invariant filesByName == before.files - LoggedNames(before.fileLog[p.pendingFiles..i])
        modifies `filesByName
      {
        RemoveOneName(before.files, before.fileLog, p.pendingFiles, i);
        filesByName := filesByName - {TextAt(filesAfterCheckpoint[i])};
        i := i + 1;
      }
      i := p.pendingExtensions;
      while i < |extensionsAfterCheckpoint|
        invariant p.pendingExtensions <= i <= |extensionsAfterCheckpoint|
        invariant extensions == before.extensions - Elements(before.extensionLog[p.pendingExtensions..i])
        modifies `extensions
      {
        RemoveOne(before.extensions, before.extensionLog, p.pendingExtensions, i);
        extensions := extensions - {extensionsAfterCheckpoint[i]};
        i := i + 1;
      }
      assert before.symbolLog[p.pendingSymbols..|before.symbolLog|] == before.symbolLog[p.pendingSymbols..];
      assert before.fileLog[p.pendingFiles..|before.fileLog|] == before.fileLog[p.pendingFiles..];
      assert before.extensionLog[p.pendingExtensions..|before.extensionLog|]
          == before.extensionLog[p.pendingExtensions..];
    }

    /** Erases the keys logged after a checkpoint and deletes the storage allocated after it. */
    method UndoSince(p: CheckPoint)
      requires AtOrBefore(p, Mark(Now())) && LogsLive(Now())
      modifies `symbolsByName, `filesByName, `extensions, `symbolsAfterCheckpoint, `filesAfterCheckpoint,
               `extensionsAfterCheckpoint, `strings, `messages, `fileTables, `allocations, `memory, `order
      ensures Now() == Undo(old(Now()), p)
    {
      hide Elements, LoggedNames;
      EraseSince(p);
      order := Shorter(order, |filesAfterCheckpoint| - p.pendingFiles);
      symbolsAfterCheckpoint := symbolsAfterCheckpoint[..p.pendingSymbols];
      filesAfterCheckpoint := filesAfterCheckpoint[..p.pendingFiles];
      extensionsAfterCheckpoint := extensionsAfterCheckpoint[..p.pendingExtensions];
      FreeSince(p);
    }

    /** Deleting the storage takes its cells out of memory. */
    method FreeSince(p: CheckPoint)
      requires p.strings <= |strings| && p.messages <= |messages|
      requires p.fileTables <= |fileTables| && p.allocations <= |allocations|
      modifies `strings, `messages, `fileTables, `allocations, `memory
      ensures memory == old(memory) - Elements(old(allocations)[p.allocations..])
      ensures strings == old(strings)[..p.strings] && messages == old(messages)[..p.messages]
      ensures fileTables == old(fileTables)[..p.fileTables] && allocations == old(allocations)[..p.allocations]
    {
      memory := memory - Elements(allocations[p.allocations..]);
      strings := strings[..p.strings];
      messages := messages[..p.messages];
      fileTables := fileTables[..p.fileTables];
      allocations := allocations[..p.allocations];
    }

    /** Rolling back restores exactly the contents saved by the matching AddCheckpoint and frees exactly the
        storage allocated since; earlier checkpoints stay as they were. */
    method RollbackToLastCheckpoint()
      requires Valid() && |checkpoints| > 0
      modifies this
      ensures Valid() && SameCall() && next == old(next)
      ensures checkpoints == old(checkpoints[..|checkpoints| - 1])
      ensures Now() == old(history.saved[|checkpoints| - 1])
      ensures history
           == Popped(old(history)).(freed := old(history.freed) + (old(Owned(Now())) - Owned(Now())))
    {
      hide Consistent, Undo, Owned, Elements, LoggedNames, LogsLive, AtOrBefore, Mark;
      ghost var before, h, n := Now(), history, |checkpoints| - 1;
      NamesReadable(before, checkpoints, h, next);
      RollbackConsistent(before, checkpoints, h, next);
      UndoSince(checkpoints[|checkpoints| - 1]);
      history := Popped(h).(freed := h.freed + (Owned(before) - Owned(h.saved[n])));
      checkpoints := checkpoints[..|checkpoints| - 1];
    }

    // ---------- finding ----------

    function FindSymbol(key: string): (r: Option<Symbol>)
      reads this
    {
      if CStr(key) in symbolsByName then Some(symbolsByName[CStr(key)].value) else None
    }

    function FindFile(key: string): (r: Option<Addr>)
      reads this
    {
      if CStr(key) in filesByName then Some(filesByName[CStr(key)].value) else None
    }

    // ---------- adding ----------

    /** The key must be a string the tables own: it is stored without being copied. */
    method AddSymbol(fullName: string, key: Addr, symbol: Symbol) returns (added: bool)
      requires Valid()
      requires key in strings && symbol.descriptor.block in allocations && symbol.file in memory
      requires symbol.fullName == fullName
      modifies this
      ensures Valid() && SameTransaction() && next == old(next)
      ensures added == (CStr(fullName) !in old(symbolsByName))
      ensures Now() == if added then WithSymbol(old(Now()), CStr(fullName), Entry(key, symbol)) else old(Now())
    {
      hide Consistent;
      var name := CStr(fullName);
      added := name !in symbolsByName;
      if added {
        AddSymbolConsistent(Now(), checkpoints, history, next, name, Entry(key, symbol));
        symbolsByName := symbolsByName[name := Entry(key, symbol)];
        symbolsAfterCheckpoint := symbolsAfterCheckpoint + [Entry(key, name)];
      }
    }

    method AddFile(name: string, key: Addr, file: Addr) returns (added: bool)
      requires Valid()
      requires key in strings && file in memory && memory[file].name == name
      modifies this
      ensures Valid() && SameTransaction() && next == old(next)
      ensures added == (CStr(name) !in old(filesByName))
      ensures Now() == if added then WithFile(old(Now()), CStr(name), Entry(key, file)) else old(Now())
    {
      hide Consistent;
      var cut := CStr(name);
      added := cut !in filesByName;
      if added {
        AddFileConsistent(Now(), checkpoints, history, next, cut, Entry(key, file));
        filesByName := filesByName[cut := Entry(key, file)];
        filesAfterCheckpoint := filesAfterCheckpoint + [Entry(key, cut)];
        order := order + [file];
      }
    }

    method AddExtension(extendee: Ptr, number: int, field: Ptr) returns (added: bool)
      requires Valid() && extendee.block in allocations && field.block in allocations
      modifies this
      ensures Valid() && SameTransaction() && next == old(next)
      ensures added == ((extendee, number) !in old(extensions))
      ensures Now() == if added then WithExtension(old(Now()), (extendee, number), field) else old(Now())
    {
      hide Consistent;
      var key := (extendee, number);
      added := key !in extensions;
      if added {
        AddExtensionConsistent(Now(), checkpoints, history, next, key, field);
        extensions := extensions[key := field];
        extensionsAfterCheckpoint := extensionsAfterCheckpoint + [key];
      }
    }

    // ---------- allocating ----------

    method AllocateString() returns (a: Addr)
      requires Valid()
      modifies this
      ensures Valid() && SameTransaction() && next == old(next) + 1 && a == old(next)
      ensures Now() == old(Now()).(strings := old(strings) + [a])
    {
      hide Consistent;
      AllocateStringConsistent(Now(), checkpoints, history, next);
      a := next;
      next := next + 1;
      strings := strings + [a];
    }

    method AllocateMessage() returns (a: Addr)
      requires Valid()
      modifies this
      ensures Valid() && SameTransaction() && next == old(next) + 1 && a == old(next)
      ensures Now() == old(Now()).(messages := old(messages) + [a])
    {
      hide Consistent;
      AllocateMessageConsistent(Now(), checkpoints, history, next);
      a := next;
      next := next + 1;
      messages := messages + [a];
    }

    method AllocateFileTables() returns (a: Addr)
      requires Valid()
      modifies this
      ensures Valid() && SameTransaction() && next == old(next) + 1 && a == old(next)
      ensures Now() == old(Now()).(fileTables := old(fileTables) + [a])
    {
      hide Consistent;
      AllocateTablesConsistent(Now(), checkpoints, history, next);
      a := next;
      next := next + 1;
      fileTables := fileTables + [a];
    }

    /** AllocateArray: no block is made for an empty array. */
    method AllocateArray(count: nat) returns (block: Addr)
      requires Valid()
      modifies this
      ensures Valid() && SameTransaction()
      ensures count == 0 ==> Now() == old(Now()) && next == old(next)
      ensures count > 0 ==> block == old(next) && next == old(next) + 1
                            && Now() == old(Now()).(allocations := old(allocations) + [block])
    {
      block := next;
      if count > 0 {
        AllocateBlockConsistent(Now(), checkpoints, history, next, memory);
        next := next + 1;
        allocations := allocations + [block];
      }
    }

    /** Allocate<FileDescriptor>: a new cell, with its first contents. */
    method AllocateFile(f: FileDescriptor) returns (a: Addr)
      requires Valid() && f.dependencies == []
      modifies this
      ensures Valid() && SameTransaction() && next == old(next) + 1 && a == old(next)
      ensures Now() == old(Now()).(allocations := old(allocations) + [a], memory := old(memory)[a := f])
    {
      hide Consistent;
      AllocateBlockConsistent(Now(), checkpoints, history, next, memory[next := f]);
      a := next;
      next := next + 1;
      allocations := allocations + [a];
      memory := memory[a := f];
    }

    /** The builder fills in the cell of the file it is building, which is younger than the last checkpoint. */
    method UpdateFile(a: Addr, f: FileDescriptor)
      requires Valid() && a in memory && f.name == memory[a].name && ImportsLive(a, f, memory.Keys)
      requires |checkpoints| > 0 ==> a >= history.bounds[|checkpoints| - 1]
      modifies this
      ensures Valid() && SameTransaction() && next == old(next)
      ensures Now() == old(Now()).(memory := old(memory)[a := f])
    {
      UpdateFileConsistent(Now(), checkpoints, history, next, a, f);
      memory := memory[a := f];
    }
  }

  lemma RemoveNone<K, V>(m: map<K, V>, log: seq<K>, n: nat)
    requires n <= |log|
    ensures m - Elements(log[n..n]) == m
  {
  }

  lemma RemoveNoName<V>(m: map<string, V>, log: seq<Entry<string>>, n: nat)
    requires n <= |log|
    ensures m - LoggedNames(log[n..n]) == m
  {
  }

  lemma RemoveOneName<V>(m: map<string, V>, log: seq<Entry<string>>, n: nat, i: nat)
    requires n <= i < |log|
    ensures (m - LoggedNames(log[n..i])) - {log[i].value} == m - LoggedNames(log[n..i + 1])
  {
    assert log[n..i + 1] == log[n..i] + [log[i]];
    assert LoggedNames(log[n..i + 1]) == LoggedNames(log[n..i]) + {log[i].value};
  }

  lemma RemoveOne<K, V>(m: map<K, V>, log: seq<K>, n: nat, i: nat)
    requires n <= i < |log|
    ensures (m - Elements(log[n..i])) - {log[i]} == m - Elements(log[n..i + 1])
  {
  }
}
