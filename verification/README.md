# A verified model of the descriptor pool, the TEE message codec and the JNI bridge

Open-TEE for Android ships a copy of Protocol Buffers 2.6.1, generated classes for five messages that travel between
an application and the service (an operation with up to four parameters, each a value or a reference to shared
memory), and a JNI bridge that turns such an operation into a `TEEC_Operation` of the GlobalPlatform TEE Client API
and back. This project models the three parts and proves what each of them is for.

**The descriptor pool** (`SymbolTables`, `Declarations`, `Imports`, `Lookup`, `Oneofs`, `Uses`, `Building`,
`PoolState`, `Pools`). `Tables` is a transactional store: maps, append-only undo logs, a stack of checkpoints and
owned storage. `DescriptorBuilder.BuildFile` runs over it recursively: it loads imports from a fallback database,
opens a checkpoint, registers symbols and cross-links, and cross-linking may load and commit further files under
nested checkpoints. Proved: rollback is exact whatever was committed inside it; no surviving entry refers to freed
storage; recursive loading ends, because every file under construction is pending or entered and so no longer unseen;
in every idle pool the order of `AddFile` is a topological order of imports, the symbol table is closed under
enclosing names, unless a loaded file has a package with a NUL, and every type of a field, an extension or a method
names a symbol of the right kind in a file that its own file may use; the scope-chopping lookup is a recursion over
components, each of whose lookups sees the table at some time between beginning and end when files are loaded on the
way; the dependency set is the closure over public imports; and a file in canonical form copies back, and is accepted
a second time, exactly when it names types and imports as they are found. A file may import itself, because it is
entered before its imports are looked up; a cycle of two or more files is never kept.

The maps of the tables have C strings as keys, while names are strings that may hold a NUL: a name is found under its
front part. What a file declares is validated character by character, so no symbol but a package is cut
(`Declarations.DeclaredNulFree`). What it refers to is not, and its package only in part. Two results therefore need a
condition that can be checked before the call. A file in canonical form copies back, and is accepted a second time, if
and only if no name of a type holds a NUL and each import is written as the name of the file that is found for it
(`Pools.DescriptorPool.BuildTwice`, with `Building.CutTypeName` as an instance that fails). The symbol table stays
closed when a package is entered if and only if its front part up to a NUL has no dot or is inside a package that is
there (`Declarations.PackageClosedExactly`, with `Declarations.PackageLosesParent` as an instance that fails).

The ghost arguments of the builder methods are: `start`, the state when cross-linking began; `budget`, a bound on the
files of the database that are still unseen; `clean`, whether no enclosing builder has reported an error, in which
case the pool is good even while a file is being built.

**Options** (`Options`). Assignments to singular scalar options are wrapped into unknown fields, and one is refused
when its path is already set. The check reparses what was wrapped, and cannot look into a message that is 64 MB long
or has more than 100 groups nested in a row; so a list is accepted if and only if no assignment repeats the path of an
earlier *visible* one. For visible values this is: if and only if the paths are pairwise distinct. An accepted list is
then serialized and read back, and the process is aborted if that fails. It fails if and only if a path begins with
more than 100 groups in a row or the options together take more than 64 MB (`Options.ReparseWrapped`, with
`Options.AbortsOnDeepGroups` as an instance).

**The codec** (`Wire`, `Messages`, `RoundTrips`, `Merging`, `Reading`, `Leftovers`, `Parsing`, `Writing`,
`Serializing`, `Objects`, `Accessors`, `Tee`). The generator writes the same code for every message class, so the
model is written once over schemas, and `Tee` gives the five schemas; source lines in the table cite one instance of
the template. `Messages` defines parsing by plain dispatch on tags; `Parsing` is the generated parser with its
predicted tags. `Objects` models the has-bits, the defaults, and the strings, sub-messages and list elements that the
generated classes keep; `Accessors` has their calls, and shows that any sequence of them does to an object what it
would do to a plain message. `Leftovers` says what a parse that fails leaves behind, since the bridge uses what it
parsed without asking whether that succeeded. The wire format is that of the Protocol Buffers encoding guide ("Base
128 Varints", "Last One Wins").

Two results differ from what one might expect of the format. Sizes are below 2 GB throughout.

- `PushLimit` cuts a sub-message that claims more bytes than there are to what is left, so truncated input may parse.
  Parsing `a` followed by `b` is merging the parses of `a` and `b` for every `b` if and only if `a` is a sequence of
  complete records (`Merging.ConcatenationIsMerging`, with `Tee.CutShortParses` as an instance that fails).
- A message survives serializing and parsing if and only if it is initialized, it is `Messages.Readable`, which says
  what unknown fields parsing can store, and its serialization takes at most 64 MB or ends with the last field of its
  class (`RoundTrips.SurvivesExactly`); parsing produces only readable messages (`RoundTrips.ParseReadable`). The
  total limit of a stream is 64 MB, and a parser that reads a tag at the end of more than that refuses the end; behind
  the last field it expects the end and does not read a tag. So a shared memory of 70 MB that has no `mID` is written
  and cannot be read (`Tee.LongMemory`).

**The bridge** (`Bridge`, `Replies`, `Cancellation`). The TEE is an arbitrary update of values, sizes and buffers. The
constants are those of the TEE Client API Specification v1.0, section 4.3. `Cancellation` is a state machine over the
steps of open, invoke and cancel, each step atomic. `Replies` puts the codec around the bridge: bytes in, bytes out.

## Model

| member | source | states |
|---|---|---|
| `SymbolTables.Tables.AddCheckpoint` | otservice/src/main/jni/protobuf/src/google/protobuf/descriptor.cc:610-612 | the new checkpoint records the current sizes of all logs and storage lists; the contents do not change |
| `SymbolTables.Tables.ClearLastCheckpoint` | otservice/src/main/jni/protobuf/src/google/protobuf/descriptor.cc:614-624 | everything added stays; the undo logs are emptied exactly when the outermost checkpoint goes |
| `SymbolTables.Tables.EraseSince` | otservice/src/main/jni/protobuf/src/google/protobuf/descriptor.cc:630-644 | the three maps lose exactly the keys logged after the checkpoint; the names are read through the logs, from strings that are still owned |
| `SymbolTables.Tables.UndoSince` | otservice/src/main/jni/protobuf/src/google/protobuf/descriptor.cc:630-669 | maps, logs, storage lists, heap cells and the order of files become what they were at the checkpoint; entries are erased before the strings that are their keys are freed |
| `SymbolTables.Tables.RollbackToLastCheckpoint` | otservice/src/main/jni/protobuf/src/google/protobuf/descriptor.cc:626-671 | the contents are exactly those saved when the matching checkpoint was opened, exactly the storage allocated since is freed, and the outer checkpoints still restore what they saved |
| `SymbolTables.Tables.AddSymbol` | otservice/src/main/jni/protobuf/src/google/protobuf/descriptor.cc:768-776 | a name is entered, as a C string, and logged once; an entry that exists under the same C string is left alone and false is returned |
| `SymbolTables.Tables.AddFile` | otservice/src/main/jni/protobuf/src/google/protobuf/descriptor.cc:784-791 | a file name is entered, as a C string, and logged once, after all earlier files; an entry that exists under the same C string is left alone and false is returned |
| `SymbolTables.Tables.AddExtension` | otservice/src/main/jni/protobuf/src/google/protobuf/descriptor.cc:824-832 | an extension number is entered and logged once; an existing entry is left alone and false is returned |
| `SymbolTables.Tables.AllocateString` | otservice/src/main/jni/protobuf/src/google/protobuf/descriptor.cc:846-850 | a new string is owned by the tables and nothing else changes |
| `SymbolTables.Tables.AllocateMessage` | otservice/src/main/jni/protobuf/src/google/protobuf/descriptor.cc:852-857 | a new message is owned by the tables and nothing else changes |
| `SymbolTables.Tables.AllocateFileTables` | otservice/src/main/jni/protobuf/src/google/protobuf/descriptor.cc:859-863 | a new file table is owned by the tables and nothing else changes |
| `SymbolTables.Tables.AllocateArray` | otservice/src/main/jni/protobuf/src/google/protobuf/descriptor.cc:841-875 | a block is allocated exactly when the array has elements |
| `SymbolTables.Tables.AllocateFile` | otservice/src/main/jni/protobuf/src/google/protobuf/descriptor.cc:836-875 | a new cell for a file descriptor, at an address never used before |
| `SymbolTables.Tables.UpdateFile` | otservice/src/main/jni/protobuf/src/google/protobuf/descriptor.cc:3391-3431 | filling in a cell younger than the last checkpoint does not touch what any checkpoint restores |
| `SymbolTables.UndoTwice` | otservice/src/main/jni/protobuf/src/google/protobuf/descriptor.cc:626-671 | rolling back to an inner and then to an outer checkpoint is rolling back to the outer one at once |
| `SymbolTables.RollbackConsistent` | otservice/src/main/jni/protobuf/src/google/protobuf/descriptor.cc:626-671 | after a rollback every key and value in the maps still refers to storage that is not freed, at every nesting level |
| `SymbolTables.ClearConsistent` | otservice/src/main/jni/protobuf/src/google/protobuf/descriptor.cc:614-624 | committing an inner checkpoint keeps what the outer ones restore |
| `SymbolTables.AddSymbolConsistent` | otservice/src/main/jni/protobuf/src/google/protobuf/descriptor.cc:768-776 | an insertion that is logged is undone by every open checkpoint |
| `SymbolTables.AddFileConsistent` | otservice/src/main/jni/protobuf/src/google/protobuf/descriptor.cc:784-791 | a logged insertion of a file is undone by every open checkpoint |
| `SymbolTables.AddExtensionConsistent` | otservice/src/main/jni/protobuf/src/google/protobuf/descriptor.cc:824-832 | a logged insertion of an extension is undone by every open checkpoint |
| `SymbolTables.AllocateBlockConsistent` | otservice/src/main/jni/protobuf/src/google/protobuf/descriptor.cc:865-875 | allocation keeps live and freed storage apart |
| `Declarations.RegisterPackageClosed` | otservice/src/main/jni/protobuf/src/google/protobuf/descriptor.cc:3125-3150 | AddPackage may stop at the first name that exists: for a package without a NUL, a table closed under enclosing names stays closed, and the package and all its prefixes are packages |
| `Declarations.RegisterPackageContents` | otservice/src/main/jni/protobuf/src/google/protobuf/descriptor.cc:3125-3150 | AddPackage only adds packages of this file and keeps every earlier entry |
| `Declarations.RegisterAllContents` | otservice/src/main/jni/protobuf/src/google/protobuf/descriptor.cc:3087-3123 | registering declarations only adds symbols of this file, each under its C string, keeps every earlier entry, and is free of errors only if every local check passed and every C string was free |
| `Declarations.FileRooted` | otservice/src/main/jni/protobuf/src/google/protobuf/descriptor.cc:3523-4072 | every symbol a file declares is inside its package or inside another symbol it declares, and adds no NUL to the name of the package |
| `Declarations.RegisterFileClosed` | otservice/src/main/jni/protobuf/src/google/protobuf/descriptor.cc:3087-3123 | a file registered without errors keeps the symbol table closed under enclosing names |
| `Declarations.InsideSameFile` | otservice/src/main/jni/protobuf/src/google/protobuf/descriptor.cc:1425-1445 | whatever is below a symbol that is not a package is in the file of that symbol; what encloses a package is a package |
| `Declarations.PackageClosedExactly` | otservice/src/main/jni/protobuf/src/google/protobuf/descriptor.cc:3125-3150 | registering a package keeps the table closed if and only if the package has no NUL, or its front part up to the NUL is there already, has no dot, or is directly inside a package that is there |
| `Declarations.PackageLosesParent` | otservice/src/main/jni/protobuf/src/google/protobuf/descriptor.cc:3125-3150 | the package a.b, NUL, c.d is accepted and leaves a.b without a, or makes a.b a package below a message a: the condition cannot be dropped |
| `Declarations.DeclaredNulFree` | otservice/src/main/jni/protobuf/src/google/protobuf/descriptor.cc:3087-3123 | every full name that is declared without errors is free of NULs |
| `Declarations.NothingInCutPackage` | otservice/src/main/jni/protobuf/src/google/protobuf/descriptor.cc:3087-3123 | in a package with a NUL nothing can be declared |
| `Declarations.RegisterFileWhole` | otservice/src/main/jni/protobuf/src/google/protobuf/descriptor.cc:3087-3123 | registering a file without errors keeps the key of every symbol that is not a package its whole name |
| `Imports.ClosureIsReachable` | otservice/src/main/jni/protobuf/src/google/protobuf/descriptor.cc:2805-2810 | a set that holds the imports, is closed under public imports and holds nothing unreachable is exactly what public imports reach from them |
| `Pools.DescriptorBuilder.RecordPublicDependencies` | otservice/src/main/jni/protobuf/src/google/protobuf/descriptor.cc:2805-2810 | the recursion ends on every import graph and adds exactly a file and what it reaches by public imports, given what was visited before |
| `Pools.DescriptorBuilder.CollectDependencies` | otservice/src/main/jni/protobuf/src/google/protobuf/descriptor.cc:3451-3455 | the dependency set is exactly the direct imports and what they reach by public imports |
| `Lookup.ResolveChopped` | otservice/src/main/jni/protobuf/src/google/protobuf/descriptor.cc:2912-2952 | one turn of the lookup loop on the chopped string is one step of the recursion over components |
| `Lookup.ResolveDecided` | otservice/src/main/jni/protobuf/src/google/protobuf/descriptor.cc:2881-2953 | the innermost scope that defines the first part acceptably decides the answer, even when the rest of a compound name is missing there; otherwise the name is looked up from the root |
| `Lookup.MayResolveSame` | otservice/src/main/jni/protobuf/src/google/protobuf/descriptor.cc:2881-2953 | a resolution whose lookups all see the same table is the recursive resolution |
| `Lookup.ScopeTried` | otservice/src/main/jni/protobuf/src/google/protobuf/descriptor.cc:2921-2951 | a scope that is tried while files are being loaded either decides, or is passed over, at some time between the beginning of the lookup and its end |
| `Pools.DescriptorBuilder.LookupInScope` | otservice/src/main/jni/protobuf/src/google/protobuf/descriptor.cc:2921-2951 | one scope: non-aggregates and non-types are skipped, an aggregate decides; with a fallback database each of the two lookups happens at some time between beginning and end |
| `Pools.DescriptorBuilder.LookupInScopes` | otservice/src/main/jni/protobuf/src/google/protobuf/descriptor.cc:2902-2953 | the in-place loop ends and computes a resolution each of whose lookups gives what the table holds at some time between beginning and end; a result may be used by this file and has, as a C string, the name that was asked for in one of the scopes |
| `Pools.DescriptorBuilder.LookupSymbolNoPlaceholder` | otservice/src/main/jni/protobuf/src/google/protobuf/descriptor.cc:2881-2953 | fully qualified names are looked up as they are, others by resolution from the innermost scope; with no database to load from this is the recursive resolution in the table as it is |
| `Pools.DescriptorBuilder.FindSymbolNotEnforcingDeps` | otservice/src/main/jni/protobuf/src/google/protobuf/descriptor.cc:2812-2840 | a result is in the table, what was there before is found, and loading takes nothing out of sight; without a database nothing changes |
| `Pools.DescriptorBuilder.FindSymbol` | otservice/src/main/jni/protobuf/src/google/protobuf/descriptor.cc:2842-2879 | a result has the C string of the name that was asked for; with enforced dependencies it is in this file or in the dependency set, or is a package that one of these files is in; what this builder saw before it still finds |
| `Oneofs.LayOut` | otservice/src/main/jni/protobuf/src/google/protobuf/descriptor.cc:4121-4159 | after the three passes each oneof lists exactly its own fields in declaration order, each field knows its index in that list, and whether some oneof is empty is reported |
| `Oneofs.CountFields` | otservice/src/main/jni/protobuf/src/google/protobuf/descriptor.cc:4124-4131 | the first pass counts the members of every oneof |
| `Oneofs.Allocate` | otservice/src/main/jni/protobuf/src/google/protobuf/descriptor.cc:4133-4147 | the second pass gives every oneof an array of exactly that size and resets the count |
| `Oneofs.FillOne` | otservice/src/main/jni/protobuf/src/google/protobuf/descriptor.cc:4151-4158 | one write of the third pass is in bounds and extends the listing by this field |
| `Oneofs.Fill` | otservice/src/main/jni/protobuf/src/google/protobuf/descriptor.cc:4149-4159 | the third pass never writes out of bounds and completes every listing |
| `Oneofs.MembersExact` | otservice/src/main/jni/protobuf/src/google/protobuf/descriptor.cc:4149-4159 | the listing holds a field if and only if the field names that oneof, in increasing order and once |
| `Oneofs.FieldsConserved` | otservice/src/main/jni/protobuf/src/google/protobuf/descriptor.cc:4121-4159 | the listings and the fields outside oneofs together count every field once |
| `Numbers.ItoaParses` | otservice/src/main/jni/protobuf/src/google/protobuf/descriptor.cc:1514-1528 | an integer printed in decimal holds no NUL, and is read back when its text is read as a default |
| `Building.DefaultCopiesBack` | otservice/src/main/jni/protobuf/src/google/protobuf/descriptor.cc:3660-3746 | a canonical default that parses is printed as it was written |
| `Building.FieldCopiesBack` | otservice/src/main/jni/protobuf/src/google/protobuf/descriptor.cc:1631-1678 | a canonical field, whose type name and extendee hold no NUL, copies to its proto when it is built and linked without errors |
| `Building.EnumsCopyBack` | otservice/src/main/jni/protobuf/src/google/protobuf/descriptor.cc:1684-1703 | built enums copy to their protos |
| `Building.MessageCopiesBack` | otservice/src/main/jni/protobuf/src/google/protobuf/descriptor.cc:1602-1629 | a canonical message whose parts were linked without errors copies to its proto, oneof layout notwithstanding |
| `Building.ServicesCopyBack` | otservice/src/main/jni/protobuf/src/google/protobuf/descriptor.cc:1705-1733 | services whose method types are fully qualified and hold no NUL copy to their protos when linked |
| `Building.FileCopiesBack` | otservice/src/main/jni/protobuf/src/google/protobuf/descriptor.cc:1562-1594 | a canonical file that was built without errors, and whose imports are the names of the files that were found, copies to its proto |
| `Building.IdentifierIsLast` | otservice/src/main/jni/protobuf/src/google/protobuf/descriptor.cc:4275-4304 | an enum default is found under a full name whose last part is the default as written |
| `Building.DottedName` | otservice/src/main/jni/protobuf/src/google/protobuf/descriptor.cc:1631-1678 | a fully qualified name is copied back as it was written if and only if it holds no NUL |
| `Building.CutTypeName` | otservice/src/main/jni/protobuf/src/google/protobuf/descriptor.cc:676-683 | the type name .Foo, NUL, x ends at Foo, which is copied back as .Foo: the condition on NULs cannot be dropped |
| `Pools.CutNameFinds` | otservice/src/main/jni/protobuf/src/google/protobuf/descriptor.cc:676-683 | a name with a NUL finds the symbol that its front part finds, unless that is a package |
| `Building.FileSpelledBack` | otservice/src/main/jni/protobuf/src/google/protobuf/descriptor.cc:1562-1594 | a file whose types were found under names without a NUL is copied back without NULs in the names of its types |
| `Pools.DescriptorPool.BuildTwice` | otservice/src/main/jni/protobuf/src/google/protobuf/descriptor.cc:3291-3309 | building a file in canonical form a second time changes no table; it returns the first descriptor if and only if no name of a type holds a NUL and each import is written as the name of the file found for it, and otherwise it fails |
| `Pools.DescriptorPool.SpelledBack` | otservice/src/main/jni/protobuf/src/google/protobuf/descriptor.cc:3291-3309 | whatever CopyTo gives back had no NUL in the name of a type, and its imports were written as the names of the files found for them |
| `PoolState.ImportsSpelledBack` | otservice/src/main/jni/protobuf/src/google/protobuf/descriptor.cc:3391-3431 | when CopyTo gives a file back its imports were written as the names of files that were there, or as its own name |
| `PoolState.LinkedSpelled` | otservice/src/main/jni/protobuf/src/google/protobuf/descriptor.cc:676-683 | the names of the types that a linked file refers to hold no NUL |
| `PoolState.AddedAfterImports` | otservice/src/main/jni/protobuf/src/google/protobuf/descriptor.cc:3378-3430 | in an idle pool the order of AddFile is a topological order: it lists exactly the loaded files, each once, and every import of a file comes before it or is the file itself |
| `PoolState.NoImportCycle` | otservice/src/main/jni/protobuf/src/google/protobuf/descriptor.cc:3378-3430 | no loaded file is on an import cycle of length two or more |
| `PoolState.SubSymbolNeverAppears` | otservice/src/main/jni/protobuf/src/google/protobuf/descriptor.cc:1425-1445 | a name below a non-package symbol that is missing is never added later by another file, while no loaded file has a package with a NUL: not asking the database for it is then sound |
| `PoolState.EnclosingPackages` | otservice/src/main/jni/protobuf/src/google/protobuf/descriptor.cc:3125-3150 | every prefix of a registered package is a registered package, when no loaded file has a package with a NUL |
| `PoolState.SiblingName` | otservice/src/main/jni/protobuf/src/google/protobuf/descriptor.cc:3957-3962 | cutting the own name off the full name of an enum and appending the name of a value gives a sibling of the enum |
| `PoolState.DeclaredGood` | otservice/src/main/jni/protobuf/src/google/protobuf/descriptor.cc:3343-3430 | a file whose declarations and imports raised no error keeps the invariant of the pool while it is being built |
| `PoolState.CommitSteps` | otservice/src/main/jni/protobuf/src/google/protobuf/descriptor.cc:3514-3520 | a commit, whatever nested builds committed in between, only adds to what was there at the checkpoint |
| `PoolState.AllDeclared` | otservice/src/main/jni/protobuf/src/google/protobuf/descriptor.cc:3087-3123 | registering a file without errors enters every declaration under its full name as a symbol of that file, and the package, as a C string, as a package |
| `PoolState.KnownLinked` | otservice/src/main/jni/protobuf/src/google/protobuf/descriptor.cc:4076-4097 | a committed file refers, for each extendee, message or enum type and method type, to a symbol of the right kind in the file itself or in a file that it reaches by an import and then public imports |
| `PoolState.AllLinkedGrows` | otservice/src/main/jni/protobuf/src/google/protobuf/descriptor.cc:3378-3520 | building more files keeps the types of all files resolved |
| `Uses.FileAllKnown` | otservice/src/main/jni/protobuf/src/google/protobuf/descriptor.cc:4076-4097 | the types of a file are resolved when those of its messages, services and extensions are |
| `PoolState.StartLoading` | otservice/src/main/jni/protobuf/src/google/protobuf/descriptor.cc:3327-3341 | marking a file as pending makes one more file of the database seen |
| `PoolState.FinishLoading` | otservice/src/main/jni/protobuf/src/google/protobuf/descriptor.cc:3379-3386 | entering the file under its name makes at least one more file of the database seen |
| `PoolState.UnseenShrinks` | otservice/src/main/jni/protobuf/src/google/protobuf/descriptor.cc:3320-3341 | nothing that nested builds do makes a file unseen again |
| `Pools.DescriptorPool.TryFindFileInFallbackDatabase` | otservice/src/main/jni/protobuf/src/google/protobuf/descriptor.cc:1411-1423 | success means the file is loaded, failure that its name is remembered; the tables only grow, and the number of files still to load does not |
| `Pools.DescriptorPool.IsSubSymbolOfBuiltType` | otservice/src/main/jni/protobuf/src/google/protobuf/descriptor.cc:1425-1445 | true if and only if some enclosing name, as a C string, is a symbol other than a package |
| `Pools.DescriptorPool.TryFindSymbolInFallbackDatabase` | otservice/src/main/jni/protobuf/src/google/protobuf/descriptor.cc:1447-1486 | the tables only grow; a failure is remembered; without a database nothing happens |
| `Pools.DescriptorPool.BuildFileFromDatabase` | otservice/src/main/jni/protobuf/src/google/protobuf/descriptor.cc:2702-2715 | a file is returned exactly under its name; failed names are remembered |
| `Pools.DescriptorPool.BuildFile` | otservice/src/main/jni/protobuf/src/google/protobuf/descriptor.cc:2676-2686 | a failed build restores the contents exactly; a file that was not there is found afterwards, with every symbol that it declares; a name that is taken gives the file that is there if it is identical, and NULL otherwise; a file in canonical form that was built copies to its proto if and only if no name of a type holds a NUL and each import is written as the name of the file found for it |
| `Pools.DescriptorPool.FindFileByName` | otservice/src/main/jni/protobuf/src/google/protobuf/descriptor.cc:1028-1043 | a file that is loaded is found with no change; otherwise the pool only grows and stays good |
| `Pools.DescriptorPool.FindByName` | otservice/src/main/jni/protobuf/src/google/protobuf/descriptor.cc:702-723 | a symbol that is loaded is found with no change; otherwise the pool only grows and stays good |
| `Pools.DescriptorPool.ForgetFailures` | otservice/src/main/jni/protobuf/src/google/protobuf/descriptor.cc:705-706 | each public call forgets earlier failures, and changes nothing else |
| `Pools.DescriptorPool.RememberBadFile` | otservice/src/main/jni/protobuf/src/google/protobuf/descriptor.cc:1417-1421 | a failed file name is remembered, and nothing else changes |
| `Pools.DescriptorPool.RememberBadSymbol` | otservice/src/main/jni/protobuf/src/google/protobuf/descriptor.cc:1479-1483 | a failed symbol name is remembered, and nothing else changes |
| `Pools.DescriptorPool.Serve` | otservice/src/main/jni/protobuf/src/google/protobuf/descriptor.cc:2676-2686 | after any sequence of public calls nothing is pending, no checkpoint is open, imports and symbols of loaded files are loaded, files are in topological order, every type of a field, an extension or a method is resolved, the symbol table is closed unless a loaded file has a package with a NUL, and nothing that was there has changed |
| `Pools.DescriptorBuilder.BuildFile` | otservice/src/main/jni/protobuf/src/google/protobuf/descriptor.cc:3291-3521 | ends for every keyed finite database; a failure leaves exactly the contents of its checkpoint, a success a loaded file; an identical file is returned without any change |
| `Pools.DescriptorBuilder.BuildNew` | otservice/src/main/jni/protobuf/src/google/protobuf/descriptor.cc:3327-3386 | a file that is neither loaded nor pending is built after its imports were loaded |
| `Pools.DescriptorBuilder.BuildInTransaction` | otservice/src/main/jni/protobuf/src/google/protobuf/descriptor.cc:3343-3386 | between checkpoint and commit or rollback; a success means that every local check passed |
| `Pools.DescriptorBuilder.BuildOpened` | otservice/src/main/jni/protobuf/src/google/protobuf/descriptor.cc:3387-3520 | a file that was entered gets its package, imports and children, is cross-linked and committed; on any error everything since the checkpoint is undone |
| `Pools.DescriptorBuilder.LinkAndFinish` | otservice/src/main/jni/protobuf/src/google/protobuf/descriptor.cc:3488-3521 | a file whose declarations are entered is linked and kept, or undone |
| `Pools.DescriptorBuilder.LoadImports` | otservice/src/main/jni/protobuf/src/google/protobuf/descriptor.cc:3327-3341 | loading the imports never builds the file itself, which is pending meanwhile, though it may build one whose name has the same front part up to a NUL; it takes up no more files of the database than are unseen |
| `Pools.DescriptorBuilder.IsPending` | otservice/src/main/jni/protobuf/src/google/protobuf/descriptor.cc:3320-3325 | whether the name is among the files being loaded |
| `Pools.DescriptorBuilder.NewFile` | otservice/src/main/jni/protobuf/src/google/protobuf/descriptor.cc:3346-3372 | a new cell for the file, a file table and two strings are allocated, and nothing else changes |
| `Pools.DescriptorBuilder.OpenFile` | otservice/src/main/jni/protobuf/src/google/protobuf/descriptor.cc:3346-3386 | the file gets a new cell and its name, or the name is taken, as a C string, and nothing is entered |
| `Pools.DescriptorBuilder.OpenPackage` | otservice/src/main/jni/protobuf/src/google/protobuf/descriptor.cc:3387-3389 | the package of the file is registered |
| `Pools.DescriptorBuilder.AddPackage` | otservice/src/main/jni/protobuf/src/google/protobuf/descriptor.cc:3125-3150 | registers a package and its parents up to the first name that exists, with an error for a non-package or an invalid name |
| `Pools.DescriptorBuilder.Declare` | otservice/src/main/jni/protobuf/src/google/protobuf/descriptor.cc:3087-3123 | one symbol is entered, or an error is recorded because the name is taken or a check fails |
| `Pools.DescriptorBuilder.FindImports` | otservice/src/main/jni/protobuf/src/google/protobuf/descriptor.cc:3391-3431 | when no error is recorded the imports are the files whose names have the C strings that the proto names |
| `Pools.DescriptorBuilder.FindPublicImports` | otservice/src/main/jni/protobuf/src/google/protobuf/descriptor.cc:3433-3449 | when no error is recorded the valid public indexes are returned |
| `Pools.DescriptorBuilder.SetImports` | otservice/src/main/jni/protobuf/src/google/protobuf/descriptor.cc:3391-3455 | the cell of the file holds its imports, and the dependency set is their closure |
| `Pools.DescriptorBuilder.BuildFields` | otservice/src/main/jni/protobuf/src/google/protobuf/descriptor.cc:3592-3863 | fields are registered in order and initialized as the proto says |
| `Pools.DescriptorBuilder.BuildOneofs` | otservice/src/main/jni/protobuf/src/google/protobuf/descriptor.cc:3889-3909 | oneofs are registered in order, still empty |
| `Pools.DescriptorBuilder.BuildEnumValues` | otservice/src/main/jni/protobuf/src/google/protobuf/descriptor.cc:3950-4016 | values are registered as siblings of their enum |
| `Pools.DescriptorBuilder.BuildEnum` | otservice/src/main/jni/protobuf/src/google/protobuf/descriptor.cc:3911-3948 | values first, then the enum |
| `Pools.DescriptorBuilder.BuildMessage` | otservice/src/main/jni/protobuf/src/google/protobuf/descriptor.cc:3523-3590 | oneofs, fields, nested messages, enums and extensions are registered before the message itself |
| `Pools.DescriptorBuilder.BuildService` | otservice/src/main/jni/protobuf/src/google/protobuf/descriptor.cc:4018-4042 | methods first, then the service |
| `Pools.DescriptorBuilder.BuildChildren` | otservice/src/main/jni/protobuf/src/google/protobuf/descriptor.cc:3473-3477 | the declarations of the file in the order of the source |
| `Pools.DescriptorBuilder.LinkExtendee` | otservice/src/main/jni/protobuf/src/google/protobuf/descriptor.cc:4168-4195 | the extendee is a message that this file may use, it has as a C string the name that was written in one of the scopes and, when no error is recorded, its extension ranges hold the number |
| `Pools.DescriptorBuilder.LinkType` | otservice/src/main/jni/protobuf/src/google/protobuf/descriptor.cc:4208-4321 | without errors a message or enum type names a symbol of that kind that this file may use, and a canonical field, whose type name holds no NUL, has the type, the type name and the default that were written; linking that ends early records an error |
| `Pools.DescriptorBuilder.LinkToType` | otservice/src/main/jni/protobuf/src/google/protobuf/descriptor.cc:4232-4314 | a symbol that was found becomes the type of the field if it is of the right kind |
| `Pools.DescriptorBuilder.LinkTypeAndNumber` | otservice/src/main/jni/protobuf/src/google/protobuf/descriptor.cc:4208-4367 | the type of the field and then its number, once the extendee is known |
| `Pools.DescriptorBuilder.LinkEnum` | otservice/src/main/jni/protobuf/src/google/protobuf/descriptor.cc:4260-4310 | the enum that was found is the type of the field and stays in the table while its default is looked up |
| `Pools.DescriptorBuilder.LinkEnumDefault` | otservice/src/main/jni/protobuf/src/google/protobuf/descriptor.cc:4275-4310 | when no error is recorded the default has the name that was written, or is the first value of the enum when none was written |
| `Pools.DescriptorBuilder.AddNumber` | otservice/src/main/jni/protobuf/src/google/protobuf/descriptor.cc:4323-4367 | a number used twice in a message is an error; a new extension number is entered, and one taken by another file is no error |
| `Pools.DescriptorBuilder.CrossLinkField` | otservice/src/main/jni/protobuf/src/google/protobuf/descriptor.cc:4162-4371 | a canonical field linked without errors copies back, and its extendee and its type are resolved |
| `Pools.DescriptorBuilder.CrossLinkMessage` | otservice/src/main/jni/protobuf/src/google/protobuf/descriptor.cc:4099-4160 | a canonical message linked without errors copies back, and all types in it are resolved |
| `Pools.DescriptorBuilder.LayOutOneofs` | otservice/src/main/jni/protobuf/src/google/protobuf/descriptor.cc:4121-4159 | the oneofs of a message are laid out, and an empty one is an error |
| `Pools.DescriptorBuilder.LinkMethodType` | otservice/src/main/jni/protobuf/src/google/protobuf/descriptor.cc:4403-4434 | when no error is recorded the type of a method is a message that this file may use, and a fully qualified one without a NUL is found under that name |
| `Pools.DescriptorBuilder.CrossLinkService` | otservice/src/main/jni/protobuf/src/google/protobuf/descriptor.cc:4392-4434 | a service in canonical form, without NULs in the types of its methods, copies back when linked without errors, and the types of its methods are resolved |
| `Pools.DescriptorBuilder.CrossLinkFile` | otservice/src/main/jni/protobuf/src/google/protobuf/descriptor.cc:4076-4097 | canonical messages, extensions and services linked without errors copy back, and all types in the file are resolved |
| `Pools.DescriptorBuilder.Finish` | otservice/src/main/jni/protobuf/src/google/protobuf/descriptor.cc:3504-3521 | the linked file is validated, then committed or rolled back |
| `Pools.DescriptorBuilder.RollBack` | otservice/src/main/jni/protobuf/src/google/protobuf/descriptor.cc:3514-3516 | the contents are those of the checkpoint of this builder, even when files were built and committed inside it |
| `Options.FoundWhereSet` | otservice/src/main/jni/protobuf/src/google/protobuf/descriptor.cc:4879-4921 | a wrapped value is found at its own path, if the reader can look through the wrapping, and at no other path |
| `Options.ParseWrapped` | otservice/src/main/jni/protobuf/src/google/protobuf/descriptor.cc:4963-4975 | exactly which wrapped messages the reader can open: shorter than 64 MB and with at most 100 groups nested in a row |
| `Options.TooDeep` | otservice/src/main/jni/protobuf/src/google/protobuf/wire_format.cc:112-126 | groups nested deeper than the recursion limit are not read |
| `Options.HoldsAssigned` | otservice/src/main/jni/protobuf/src/google/protobuf/descriptor.cc:4736-4921 | after any list of assignments each path holds exactly the visible values assigned to it |
| `Options.HoldsItsValue` | otservice/src/main/jni/protobuf/src/google/protobuf/descriptor.cc:4870-4921 | after a run that refused nothing a path holds exactly its assigned value under the nested wrapping |
| `Options.DistinctPaths` | otservice/src/main/jni/protobuf/src/google/protobuf/descriptor.cc:4870-4921 | when every value can be seen, interpretation succeeds if and only if the paths are pairwise distinct and the options can be read back |
| `Options.SetTwice` | otservice/src/main/jni/protobuf/src/google/protobuf/descriptor.cc:4963-4975 | an option below a message and 101 groups can be set twice: the condition on what can be seen cannot be dropped |
| `Options.ReparseWrapped` | otservice/src/main/jni/protobuf/src/google/protobuf/descriptor.cc:4715-4731 | the serialized options are read back as they were if and only if no path begins with more than 100 groups in a row and all options together take no more than 64 MB |
| `Options.DecodeWrapped` | otservice/src/main/jni/protobuf/src/google/protobuf/descriptor.cc:4724-4729 | a list of wrapped values is read back field by field, or not at all when one is in groups nested too deep |
| `Options.AbortsOnDeepGroups` | otservice/src/main/jni/protobuf/src/google/protobuf/descriptor.cc:4726-4729 | an option below 101 groups at the top level is accepted, and the options then cannot be read back |
| `Options.OptionInterpreter.InterpretAll` | otservice/src/main/jni/protobuf/src/google/protobuf/descriptor.cc:4702-4713 | a list of well-typed assignments is accepted if and only if none repeats the path of an earlier visible one, and leaves exactly the wrapped values |
| `Options.OptionInterpreter.ExamineIfOptionIsSet` | otservice/src/main/jni/protobuf/src/google/protobuf/descriptor.cc:4936-4995 | true if and only if no value is found at the path |
| `Options.OptionInterpreter.ExamineField` | otservice/src/main/jni/protobuf/src/google/protobuf/descriptor.cc:4957-4992 | one field of the set: skipped, opened as a message or entered as a group |
| `Options.OptionInterpreter.InterpretSingleOption` | otservice/src/main/jni/protobuf/src/google/protobuf/descriptor.cc:4869-4924 | succeeds if and only if nothing is found at the path, and then adds the wrapped value |
| `Options.OptionInterpreter.InterpretOptions` | otservice/src/main/jni/protobuf/src/google/protobuf/descriptor.cc:4677-4734 | refused exactly when an assignment repeats the path of an earlier visible one; otherwise the process is aborted exactly when the options cannot be read back, and else the options hold exactly the wrapped values |
| `Wire.ReadVarint64Back` | otservice/src/main/jni/protobuf/src/google/protobuf/io/coded_stream.cc:444-516 | a 64-bit varint is read back, whatever follows it |
| `Wire.ReadVarint32Back` | otservice/src/main/jni/protobuf/src/google/protobuf/io/coded_stream.cc:361-385 | the 32-bit reading accepts longer varints and drops the high bits |
| `Wire.VarintLength` | otservice/src/main/jni/protobuf/src/google/protobuf/io/coded_stream.cc:877-903 | a varint takes k bytes or fewer if and only if its value is below 128 to the power k |
| `Wire.VarintSize64Exact` | otservice/src/main/jni/protobuf/src/google/protobuf/io/coded_stream.cc:877-903 | the tree of comparisons gives the length of a 64-bit varint |
| `Wire.VarintSize32Exact` | otservice/src/main/jni/protobuf/src/google/protobuf/io/coded_stream.cc:863-875 | the tree of comparisons gives the length of a 32-bit varint |
| `Wire.Int32Back` | otservice/src/main/jni/protobuf/src/google/protobuf/io/coded_stream.h:1019-1025 | an int32 is read back; a negative one takes ten bytes |
| `Wire.SkipFieldBack` | otservice/src/main/jni/protobuf/src/google/protobuf/wire_format.cc:82-140 | a stored unknown field is written and read back unchanged |
| `Wire.SkipGroupBack` | otservice/src/main/jni/protobuf/src/google/protobuf/wire_format.cc:142-160 | the fields of a group are read back up to its own end tag |
| `Wire.SkipFieldStorable` | otservice/src/main/jni/protobuf/src/google/protobuf/wire_format.cc:82-140 | whatever skipping stores could be written and read back, under the tag it was read with |
| `Wire.SkipFieldAppend` | otservice/src/main/jni/protobuf/src/google/protobuf/wire_format.cc:82-140 | bytes after a complete field do not matter |
| `RoundTrips.MessageBack` | otservice/src/main/jni/gpdatatypes/GPDataTypes.pb.cc:308-410 | parsing the serialization of a readable message into an empty one gives the message back, through all nesting levels |
| `RoundTrips.UnknownBack` | otservice/src/main/jni/gpdatatypes/GPDataTypes.pb.cc:703-734 | unknown fields and unknown enum values come back in order |
| `RoundTrips.ParseBack` | otservice/src/main/jni/protobuf/src/google/protobuf/message_lite.cc:141-145 | parsing the serialization of an initialized readable message of at most 64 MB returns it |
| `RoundTrips.ParseReadable` | otservice/src/main/jni/gpdatatypes/GPDataTypes.pb.cc:308-366 | parsing keeps a message readable: nothing is stored that could not be read back |
| `RoundTrips.ParseStable` | otservice/src/main/jni/protobuf/src/google/protobuf/message_lite.cc:141-145 | a result of parsing that serializes to at most 64 MB survives serializing and parsing |
| `RoundTrips.SurvivesExactly` | otservice/src/main/jni/protobuf/src/google/protobuf/message_lite.cc:141-145 | a message survives serializing and parsing if and only if it is initialized, holds only what parsing could have stored, and serializes to at most 64 MB or ends with the last field of its schema |
| `RoundTrips.EncodedTail` | otservice/src/main/jni/protobuf/src/google/protobuf/io/coded_stream.h:980-993 | for a message without sub-messages the serialization ends behind the last field, where the parser expects the end, if and only if that field is set and no other unknown field follows |
| `RoundTrips.EnumStorable` | otservice/src/main/jni/gpdatatypes/GPDataTypes.pb.cc:624-632 | an unknown enum value is stored as a sign-extended varint that the parser leaves unknown again |
| `Merging.ParseMerged` | otservice/src/main/jni/gpdatatypes/GPDataTypes.pb.cc:455-464 | parsing into a merged message is merging with what is parsed: scalars are replaced, sub-messages merged, lists and unknown fields appended |
| `Merging.ParseOneAfterAnother` | otservice/src/main/jni/gpdatatypes/GPDataTypes.pb.cc:611-701 | parsing complete records and then more is parsing the rest into the first result |
| `Merging.CompleteParsesApart` | otservice/src/main/jni/gpdatatypes/GPDataTypes.pb.cc:827-844 | one input after another parses as MergeFrom of the separate parses |
| `Merging.CutShort` | otservice/src/main/jni/protobuf/src/google/protobuf/wire_format_lite_inl.h:482-497 | a record that parses but cannot be skipped is a sub-message cut short by the end of the input, which swallows what follows |
| `Merging.ConcatenationIsMerging` | otservice/src/main/jni/protobuf/src/google/protobuf/wire_format_lite_inl.h:482-497 | concatenation is merging for every continuation if and only if the first input holds complete records; the same holds when only continuations are taken that keep the whole within 64 MB |
| `Leftovers.LeftComplete` | otservice/src/main/jni/gpdatatypes/GPDataTypes.pb.cc:308-366 | what a parse leaves behind is its result when it succeeds |
| `Leftovers.LeftFieldComplete` | otservice/src/main/jni/protobuf/src/google/protobuf/wire_format.cc:82-140 | what skipping a field leaves behind is the field when it succeeds |
| `Reading.CodedInputStream.ReadVarint64` | otservice/src/main/jni/protobuf/src/google/protobuf/io/coded_stream.cc:444-465 | the byte loop with its wrapping sum computes the varint, or fails after ten bytes or at the limit |
| `Reading.CodedInputStream.ReadVarint32` | otservice/src/main/jni/protobuf/src/google/protobuf/io/coded_stream.cc:361-368 | the 64-bit reading cut to 32 bits |
| `Reading.CodedInputStream.ReadLittleEndian` | otservice/src/main/jni/protobuf/src/google/protobuf/io/coded_stream.cc:288-320 | a fixed-size number |
| `Reading.CodedInputStream.ReadString` | otservice/src/main/jni/protobuf/src/google/protobuf/io/coded_stream.cc:249-286 | as many bytes as are asked for; when there are fewer, those that are there are stored before it fails |
| `Reading.CodedInputStream.ReadBytes` | otservice/src/main/jni/protobuf/src/google/protobuf/io/coded_stream.cc:249-286 | a length and that many bytes, refused when negative as int or more than what is left; what the string holds after a failure |
| `Reading.CodedInputStream.ReadTag` | otservice/src/main/jni/protobuf/src/google/protobuf/io/coded_stream.h:878-887 | the next tag; at the end of the input, that the message may end here unless the limit in force is beyond the total limit |
| `Reading.CodedInputStream.ReadTagWithCutoff` | otservice/src/main/jni/protobuf/src/google/protobuf/io/coded_stream.h:889-926 | the hot path for one-byte tags agrees with the slow path |
| `Reading.CodedInputStream.ExpectTag` | otservice/src/main/jni/protobuf/src/google/protobuf/io/coded_stream.h:936-957 | takes a one-byte tag exactly when it is next |
| `Reading.CodedInputStream.ExpectAtEnd` | otservice/src/main/jni/protobuf/src/google/protobuf/io/coded_stream.h:980-993 | true exactly at the limit, which is then a legitimate end even beyond the total limit |
| `Reading.CodedInputStream.PushLimit` | otservice/src/main/jni/protobuf/src/google/protobuf/io/coded_stream.cc:116-139 | for input within the total limit the new limit never reaches beyond the old one; a negative or oversized length is cut to what is left |
| `Reading.CodedInputStream.PopLimit` | otservice/src/main/jni/protobuf/src/google/protobuf/io/coded_stream.cc:141-150 | the outer limit is back and the end has to be found again |
| `Reading.CodedInputStream.IncrementRecursionDepth` | otservice/src/main/jni/protobuf/src/google/protobuf/io/coded_stream.h:1138-1141 | fails beyond the recursion limit |
| `Reading.CodedInputStream.DecrementRecursionDepth` | otservice/src/main/jni/protobuf/src/google/protobuf/io/coded_stream.h:1143-1145 | undoes one increment |
| `Reading.SkipField` | otservice/src/main/jni/protobuf/src/google/protobuf/wire_format.cc:82-140 | the stream method stores exactly what the definition of skipping says, fails exactly when it does, and has then stored the part of the field that was read |
| `Reading.SkipBytes` | otservice/src/main/jni/protobuf/src/google/protobuf/wire_format.cc:99-111 | a string of bytes is stored whole or as far as it was read |
| `Reading.SkipMessage` | otservice/src/main/jni/protobuf/src/google/protobuf/wire_format.cc:142-160 | the loop reads the fields of a group, and keeps those read before a failure; the last tag tells whether its own end was reached |
| `Parsing.MergePartialFromCodedStream` | otservice/src/main/jni/gpdatatypes/GPDataTypes.pb.cc:611-701 | the predicting parser, with its jumps, ends orderly if and only if plain dispatch on tags succeeds, and then with the same message; after a failure it leaves exactly what was stored before |
| `Parsing.ReadPredicted` | otservice/src/main/jni/gpdatatypes/GPDataTypes.pb.cc:620-679 | a chain of predicted fields equals dispatching each tag |
| `Parsing.Predict` | otservice/src/main/jni/gpdatatypes/GPDataTypes.pb.cc:636-679 | which tag is expected after a field, and when the end of the message is |
| `Parsing.ReadFieldValue` | otservice/src/main/jni/gpdatatypes/GPDataTypes.pb.cc:622-679 | the value of one field is read and stored as the definition says; after a failure a string or a sub-message is present and holds what was read |
| `Parsing.ReadMessage` | otservice/src/main/jni/protobuf/src/google/protobuf/wire_format_lite_inl.h:482-497 | a sub-message is read within its limit and one level deeper, and must end exactly there; what it holds after a failure |
| `Parsing.ParseFromArray` | otservice/src/main/jni/protobuf/src/google/protobuf/message_lite.cc:141-145 | a whole array parses to the message that the definition of parsing gives, if and only if it does; the message holds what was stored in either case; the end of more than 64 MB must be expected by the parser |
| `Writing.WriteVarint32ToArray` | otservice/src/main/jni/protobuf/src/google/protobuf/io/coded_stream.cc:692-720 | the ladder of comparisons writes exactly the varint, and nothing outside it |
| `Writing.WriteVarint64ToArray` | otservice/src/main/jni/protobuf/src/google/protobuf/io/coded_stream.cc:749-819 | the three-part tree with its fall-through writes exactly the varint |
| `Writing.PartsSizeExact` | otservice/src/main/jni/protobuf/src/google/protobuf/io/coded_stream.cc:766-802 | the tree over the three parts gives the length of the varint |
| `Writing.WriteVarint32SignExtendedToArray` | otservice/src/main/jni/protobuf/src/google/protobuf/io/coded_stream.h:1027-1034 | negative numbers take the 64-bit path |
| `Writing.WriteRawToArray` | otservice/src/main/jni/protobuf/src/google/protobuf/io/coded_stream.cc:638-642 | bytes are copied and nothing else is touched |
| `Writing.CodedOutputStream.WriteRaw` | otservice/src/main/jni/protobuf/src/google/protobuf/io/coded_stream.cc:626-636 | buffer after buffer is filled in order until the data is written or no buffer is left, and an error is recorded exactly when they do not hold the data |
| `Writing.CodedOutputStream.Refresh` | otservice/src/main/jni/protobuf/src/google/protobuf/io/coded_stream.cc:849-861 | the next buffer, or an error that lasts |
| `Writing.PutTwice` | otservice/src/main/jni/protobuf/src/google/protobuf/io/coded_stream.cc:626-636 | writing in pieces is writing at once, whether and wherever it fails |
| `Writing.PutAll` | otservice/src/main/jni/protobuf/src/google/protobuf/io/coded_stream.cc:626-636 | an error is recorded if and only if there is no room for all the data; without one the data is there, with one a prefix of it |
| `Writing.CodedOutputStream.ComposeVarint` | otservice/src/main/jni/protobuf/src/google/protobuf/io/coded_stream.cc:733-739 | the loop composes the varint |
| `Writing.CodedOutputStream.WriteVarint32` | otservice/src/main/jni/protobuf/src/google/protobuf/io/coded_stream.cc:722-742 | fast and slow path write the varint |
| `Writing.CodedOutputStream.WriteVarint64` | otservice/src/main/jni/protobuf/src/google/protobuf/io/coded_stream.cc:821-842 | fast and slow path write the 64-bit varint |
| `Writing.CodedOutputStream.WriteVarint32SignExtended` | otservice/src/main/jni/protobuf/src/google/protobuf/io/coded_stream.h:1019-1025 | negative numbers take the 64-bit path and ten bytes |
| `Serializing.ByteSize` | otservice/src/main/jni/gpdatatypes/GPDataTypes.pb.cc:772-813 | the size is the length of the serialization, and every cached size below is the length of its sub-message |
| `Serializing.FieldSize` | otservice/src/main/jni/gpdatatypes/GPDataTypes.pb.cc:775-803 | the size of one field with its tag |
| `Serializing.ItemsSize` | otservice/src/main/jni/gpdatatypes/GPDataTypes.pb.cc:424-430 | the size of a repeated field |
| `Serializing.ComputeUnknownFieldsSize` | otservice/src/main/jni/protobuf/src/google/protobuf/wire_format.cc:293-339 | the size of unknown fields is the length of their serialization |
| `Serializing.SerializeWithCachedSizesToArray` | otservice/src/main/jni/gpdatatypes/GPDataTypes.pb.cc:736-770 | the array serializer writes exactly the serialization at its place, with cached sizes as length prefixes |
| `Serializing.SerializeWithCachedSizes` | otservice/src/main/jni/gpdatatypes/GPDataTypes.pb.cc:703-734 | the stream serializer writes the same bytes, as far as the buffers of the stream reach |
| `Serializing.WriteMessageToArray` | otservice/src/main/jni/protobuf/src/google/protobuf/wire_format_lite_inl.h:787-795 | tag, cached size, sub-message |
| `Serializing.WriteMessageMaybeToArray` | otservice/src/main/jni/protobuf/src/google/protobuf/wire_format_lite.cc:439-452 | whether a sub-message goes through the array or the stream serializer makes no difference |
| `Serializing.SerializeUnknownFieldsToArray` | otservice/src/main/jni/protobuf/src/google/protobuf/wire_format.cc:200-233 | unknown fields are written to the array |
| `Serializing.SerializeUnknownFields` | otservice/src/main/jni/protobuf/src/google/protobuf/wire_format.cc:162-198 | unknown fields are written to the stream, as far as its buffers reach |
| `Serializing.SerializeToString` | otservice/src/main/jni/LibteeWrapper.cpp:624-625 | the size pass and the array serializer together give the serialization |
| `Serializing.SerializePartialToCodedStream` | otservice/src/main/jni/protobuf/src/google/protobuf/message_lite.cc:233-258 | succeeds if and only if the stream has room for the whole message, and then the message is in it |
| `Serializing.SendAndReceive` | otservice/src/main/jni/protobuf/src/google/protobuf/message_lite.cc:141-145 | what one side serializes into at most 64 MB the other side parses back |
| `Objects.ClearedIsBlank` | otservice/src/main/jni/gpdatatypes/GPDataTypes.pb.cc:596-609 | the mask-guarded Clear resets the whole object although it skips fields; cleared elements of lists and cleared sub-messages are kept and blank |
| `Objects.BlankView` | otservice/src/main/jni/gpdatatypes/GPDataTypes.pb.h:802-841 | an object with nothing set stands for the empty message |
| `Objects.MergedView` | otservice/src/main/jni/gpdatatypes/GPDataTypes.pb.cc:827-844 | MergeFrom on objects is merging of the messages they stand for, and keeps the invariant |
| `Objects.CopiedView` | otservice/src/main/jni/gpdatatypes/GPDataTypes.pb.cc:852-856 | a copy stands for the same message as its source |
| `Objects.ParseObjectView` | otservice/src/main/jni/gpdatatypes/GPDataTypes.pb.cc:611-701 | parsing into an object is parsing into the message it stands for, and keeps the invariant, whether the parse succeeds or fails at any point; elements that were cleared before are used again |
| `Objects.StoredView` | otservice/src/main/jni/gpdatatypes/GPDataTypes.pb.h:795-800 | storing a value with its has-bit is setting the field of the message |
| `Accessors.MessageObject.MergePartial` | otservice/src/main/jni/protobuf/src/google/protobuf/message_lite.cc:147-152 | the object stands for what parsing into its message gives and, after a failure, for exactly what was stored before; the invariant holds in both cases |
| `Accessors.MessageObject.GetNumber` | otservice/src/main/jni/gpdatatypes/GPDataTypes.pb.h:791-794 | the default when the has-bit is clear |
| `Accessors.MessageObject.GetText` | otservice/src/main/jni/gpdatatypes/GPDataTypes.pb.h:928-931 | the empty string when the has-bit is clear |
| `Accessors.MessageObject.GetMessage` | otservice/src/main/jni/gpdatatypes/GPDataTypes.pb.h:816-819 | an empty message when the has-bit is clear, whether the pointer is NULL or kept |
| `Accessors.MessageObject.SetNumber` | otservice/src/main/jni/gpdatatypes/GPDataTypes.pb.h:795-800 | sets the value and the has-bit |
| `Accessors.MessageObject.SetText` | otservice/src/main/jni/gpdatatypes/GPDataTypes.pb.h:932-939 | sets the bytes and the has-bit |
| `Accessors.MessageObject.MutableText` | otservice/src/main/jni/gpdatatypes/GPDataTypes.pb.h:956-963 | the field is present with the string it had, or an empty one of its own |
| `Accessors.MessageObject.ChangeText` | otservice/src/main/jni/gpdatatypes/GPDataTypes.pb.h:956-963 | changes through that pointer are changes of the field |
| `Accessors.MessageObject.ReleaseText` | otservice/src/main/jni/gpdatatypes/GPDataTypes.pb.h:964-973 | the field is absent and its string is handed over, NULL for the shared empty one |
| `Accessors.MessageObject.SetAllocatedText` | otservice/src/main/jni/gpdatatypes/GPDataTypes.pb.h:974-986 | the field is the string that is handed in, or absent for NULL |
| `Accessors.MessageObject.ClearField` | otservice/src/main/jni/gpdatatypes/GPDataTypes.pb.h:787-790 | the field is absent and holds its default; a kept string, sub-message or element of a list is cleared |
| `Accessors.MessageObject.MutableMessage` | otservice/src/main/jni/gpdatatypes/GPDataTypes.pb.h:820-825 | the field is present with the sub-message it had, or an empty one |
| `Accessors.MessageObject.ChangeMessage` | otservice/src/main/jni/gpdatatypes/GPDataTypes.pb.h:820-825 | changes through that pointer are changes of the field |
| `Accessors.MessageObject.ReleaseMessage` | otservice/src/main/jni/gpdatatypes/GPDataTypes.pb.h:826-831 | the field is absent and the pointer is handed over |
| `Accessors.MessageObject.SetAllocatedMessage` | otservice/src/main/jni/gpdatatypes/GPDataTypes.pb.h:832-841 | the field is what the pointer refers to, or absent for NULL |
| `Accessors.MessageObject.AddItem` | otservice/src/main/jni/protobuf/src/google/protobuf/repeated_field.h:900-909 | the list gets an empty element, a cleared one if one was kept |
| `Accessors.MessageObject.ChangeItem` | otservice/src/main/jni/gpdatatypes/GPDataTypes.pb.h:754-757 | changes through a pointer to an element are changes of that element |
| `Accessors.MessageObject.AppendItem` | otservice/src/main/jni/gpdatatypes/GPDataTypes.pb.cc:335-337 | an element that is added and filled in is appended |
| `Accessors.MessageObject.AddUnknown` | otservice/src/main/jni/gpdatatypes/GPDataTypes.pb.cc:628-632 | an unknown field is appended |
| `Accessors.MessageObject.Clear` | otservice/src/main/jni/gpdatatypes/GPDataTypes.pb.cc:596-609 | the object stands for the empty message |
| `Accessors.MessageObject.MergeFrom` | otservice/src/main/jni/gpdatatypes/GPDataTypes.pb.cc:827-844 | the object stands for the merge |
| `Accessors.MessageObject.CopyFrom` | otservice/src/main/jni/gpdatatypes/GPDataTypes.pb.cc:852-856 | the object stands for the source message |
| `Accessors.MessageObject.Perform` | otservice/src/main/jni/gpdatatypes/GPDataTypes.pb.h:775-906 | after any sequence of calls, failed parses included, the object stands for the message that the same calls make of a plain message, a field whose has-bit is clear holds its default, and Clear would reset the object |
| `Tee.ValidSchemas` | otservice/src/main/jni/gpdatatypes/GPDataTypes.proto:4-42 | the five schemas are well formed: every tag fits in one byte, and the default of an enum is one of its values |
| `Tee.GeneratedTags` | otservice/src/main/jni/gpdatatypes/GPDataTypes.pb.cc:989-1091 | the tags of the schemas are the literals that the generated parsers compare with |
| `Tee.PlainReadable` | otservice/src/main/jni/gpdatatypes/GPDataTypes.proto:4-42 | a message without unknown fields is readable when its schema nests within the limit |
| `Tee.PlainOperationBack` | otservice/src/main/jni/gpdatatypes/GPDataTypes.pb.cc:308-410 | every initialized operation without unknown fields that serializes to at most 64 MB survives serializing and parsing |
| `Tee.LongMemory` | otservice/src/main/jni/protobuf/src/google/protobuf/io/coded_stream.cc:387-442 | a shared memory whose buffer alone has 64 MB or more is parsed back when its last field is set, and is not when it is missing |
| `Tee.CutShortParses` | otservice/src/main/jni/protobuf/src/google/protobuf/wire_format_lite_inl.h:482-497 | an operation whose parameter claims more bytes than there are parses, and concatenation then is not merging |
| `Bridge.ParamTypesGet` | otservice/src/main/jni/LibteeWrapper.cpp:511-515 | the four parameter types are packed and read back |
| `Bridge.TransferToTeec` | otservice/src/main/jni/LibteeWrapper.cpp:409-520 | each parameter gets the union member and the type its flags ask for; an unknown memory stops it with the types unset |
| `Bridge.TransferParams` | otservice/src/main/jni/LibteeWrapper.cpp:422-509 | the loop over the parameters, never beyond the fourth entry |
| `Bridge.TransferBack` | otservice/src/main/jni/LibteeWrapper.cpp:552-635 | every index is in range and every union member read is the one stored; each parameter is answered as its type says and nothing else changes |
| `Bridge.ReplyConfined` | otservice/src/main/jni/LibteeWrapper.cpp:580-622 | whatever the TEE did to values, sizes and buffers, only what the request opened for output differs in the reply |
| `Bridge.Exchange` | otservice/src/main/jni/LibteeWrapper.cpp:409-635 | for any request of at most four parameters and any behaviour of the TEE the reply differs from the request only in mStarted, in returned values and in shared buffers with their returned size; an unknown memory syncs nothing back |
| `Bridge.ReplyAsksTheSame` | otservice/src/main/jni/LibteeWrapper.cpp:552-635 | a reply to an initialized request is initialized, names the same memories and has the same types |
| `Bridge.TypeIsFlag` | otservice/src/main/jni/LibteeWrapper.cpp:459-503 | the flags of the messages are numbered like the parameter types: a partial reference or a value has its flag as its type |
| `Bridge.ReplyCarriesValue` | otservice/src/main/jni/LibteeWrapper.cpp:593-595 | reading the reply as a request gives the numbers that the TEE left |
| `Bridge.ReplyCarriesBuffer` | otservice/src/main/jni/LibteeWrapper.cpp:608-610 | the reply carries the bytes and the size that the TEE left |
| `Bridge.ParentUntouched` | otservice/src/main/jni/LibteeWrapper.cpp:598-618 | when the memory is not for output an initialized parameter comes back as it was |
| `Replies.ExchangeBytes` | otservice/src/main/jni/LibteeWrapper.cpp:409-635 | a request in bytes gets a reply in bytes, which differs as replies do from what was received, whether or not that parsed; the reply is no longer than the operation that was received, the buffers and 150 bytes; the reply to a request that parses, if it is within 64 MB, is parsed back by the same parser to exactly the operation that was serialized |
| `Replies.ReplySound` | otservice/src/main/jni/LibteeWrapper.cpp:552-635 | the reply to an initialized operation that parsing can produce is initialized and can itself be parsed back |
| `Replies.ReplySize` | otservice/src/main/jni/LibteeWrapper.cpp:624-625 | a reply is longer than its operation by the buffers that it carries and 150 bytes at most |
| `Replies.ConfinedReadable` | otservice/src/main/jni/LibteeWrapper.cpp:585-618 | a parameter with returned numbers, or with a returned buffer of less than 2 GB, can be read back |
| `Cancellation.StepKeepsLive` | otservice/src/main/jni/LibteeWrapper.cpp:697-721 | no step of open, invoke or cancel leaves an entry to an operation that is not in the TEE |
| `Cancellation.RunKeepsLive` | otservice/src/main/jni/LibteeWrapper.cpp:820-838 | every interleaving of the steps keeps each entry pointing to an operation that is in the TEE |
| `Cancellation.CancelsOnlyLive` | otservice/src/main/jni/LibteeWrapper.cpp:874-895 | a cancellation reaches only the operation of a call between its emplace and its erase, and the map is empty when no call is there |
| `Cancellation.CancelsEveryCall` | otservice/src/main/jni/LibteeWrapper.cpp:820-838 | while no two calls share a key, every call in the TEE is reached under its key |
| `Cancellation.SharedKey` | otservice/src/main/jni/LibteeWrapper.cpp:697-721 | when two calls share a key, cancelling reaches the first one only, and the erase of the second makes the first unreachable |
| `Cancellation.OperationsMap.Emplace` | otservice/src/main/jni/LibteeWrapper.cpp:697-698 | publishing is the step of the state machine; an entry that exists is kept |
| `Cancellation.OperationsMap.Erase` | otservice/src/main/jni/LibteeWrapper.cpp:720-721 | withdrawing is the step of the state machine; whatever is under the key goes |
| `Cancellation.OperationsMap.RequestCancellation` | otservice/src/main/jni/LibteeWrapper.cpp:874-895 | what is found under the key gets the request |

## Left out

Of the descriptor pool:

- Options on protos, apart from the paths in `Options`: files set no options, so message sets, lite files, packed, lazy and deprecated fields, map keys and `allow_alias` do not occur, and the builder never calls `AllocateMessage`.
- Options that the options message knows: reading the options back would move them from the unknown fields into fields of their own.
- Aggregate options, repeated options, and the search for option names in the pool: an option path is a list of field numbers that fits a table of message types.
- Weak imports, placeholders, `AllowUnknownDependencies` and underlay pools.
- Source code info, error messages and warnings: an error is one flag.
- Mutexes, and the tables of a file except the one by number: names by parent, lowercase and camelcase names and locations.
- A file without a name: the name of a proto is always set.
- `TryFindExtensionInFallbackDatabase`, and everything that is claimed of `known_bad_files_` and `known_bad_symbols_` beyond their contents.
- Addresses are numbers from a counter that never reuses one, and descriptors are values in cells of a map from addresses: pointers between descriptors are names.
- An extension whose extendee is missing is not entered among the extensions: the builder would enter a NULL key, in a build that fails and rolls back.
- Pools.DescriptorBuilder.BuildFields: the defaults of float, double and bytes fields are kept as text and never read, so the errors that reading them can give are not modelled.
- `long` has 32 bits, as on the 32-bit ABIs the service is built for; `strtol` saturates.

Of the codec:

- Sub-messages are values owned by their parent: a caller that keeps a pointer from `mutable_` and uses it after the object has changed is not captured.
- Streams over several buffers on the reading side: the input is one array, so that the byte loop stands for its unrolled fast path.
- Messages.Parse: no input of more than 64 MB for a class that has sub-messages, because a sub-message then recomputes the end of the buffer from the total limit of the stream. The same holds of `Parsing.ParseFromArray` and `RoundTrips.SurvivesExactly`.
- Reading.CodedInputStream.PushLimit: only for buffers of at most 64 MB, for the same reason.
- The Java application that sends a request and receives the reply: it uses another generated parser, which is not part of this model.
- Sizes of 2^31 bytes or more, for which the source has no defined result.
- `set_` with a `char*`, and the list that `mutable_mparams()` without an index gives access to as a whole.
- Reflection, `Swap`, and the merging of messages of different classes.
- Cached sizes are a tree beside the message and not a member of it; that they are the right ones when a serializer runs is a precondition that the size pass establishes.

Of the bridge:

- JNI calls, logging, and the sessions: one static session backs every entry, so that nothing can be said about which session a call uses.
- The copy of the request buffer into registered memory, which copies as many bytes as a pointer has: the contents of a buffer before the TEE runs are not described.
- Registering and releasing shared memory: the map of known memories is a parameter of an exchange.
- Requests of more than four parameters, which the interface excludes: the arrays of an operation have four entries.
- The three accesses to `operations_map` have no lock in the source; a step is taken to be atomic.
