/** The plugin loader of the REST registry: a recursive scan of a directory
    tree that loads every `.ts` or `.js` file, registers each default export
    it finds, and records one failure message for every file that does not
    yield a handler. The file system and the module loader are replaced by
    a tree whose files already carry the outcome of loading them; only the
    final outcome of a completed scan is modelled, as multisets, because
    entries of one directory are processed concurrently. */
module PluginLoader {
  import opened Values
  import opened RESTRegistry

  /** What loading a module file gives: it throws (or its promise
      rejects), its default export is missing or falsy, or its default
      export is a handler. */
  datatype ModuleLoad = Throws(error: JsValue) | NoDefault | Default(handler: RESTHandler)

  /** A directory entry. `Unreadable` is an entry whose `lstat`, or whose
      directory listing, rejects: the rejection is not caught, so nothing
      below it is loaded and no failure message is recorded for it.
      A symbolic link is not followed; it appears as a `File`. */
  datatype Entry =
    | Dir(name: string, children: seq<Entry>)
    | File(name: string, load: ModuleLoad)
    | Unreadable(name: string)

  /** A file the scan reaches, by its base name. */
  datatype FileRef = FileRef(name: string, load: ModuleLoad)

  /** The final outcome of a scan: the handlers handed to `addHandler`
      and the failure messages recorded. */
  datatype Scanned = Scanned(registered: multiset<RESTHandler>, failures: multiset<string>)

  const Nothing := Scanned(multiset{}, multiset{})

  function Merge(a: Scanned, b: Scanned): Scanned
  {
    Scanned(a.registered + b.registered, a.failures + b.failures)
  }

  lemma MergeAssociative(a: Scanned, b: Scanned, c: Scanned)
    ensures Merge(a, Merge(b, c)) == Merge(Merge(a, b), c)
  {
    assert a.registered + (b.registered + c.registered) == (a.registered + b.registered) + c.registered;
    assert a.failures + (b.failures + c.failures) == (a.failures + b.failures) + c.failures;
  }

  predicate EndsWith(s: string, suffix: string)
  {
    |suffix| <= |s| && s[|s| - |suffix|..] == suffix
  }

  /** The files the loader tries to load: names ending in `.ts` or `.js`. */
  predicate IsModuleFile(name: string)
  {
    EndsWith(name, ".ts") || EndsWith(name, ".js")
  }

  lemma ModuleFileExamples()
    ensures IsModuleFile("ping.ts") && IsModuleFile("a.d.ts") && IsModuleFile(".js")
    ensures !IsModuleFile("README.md") && !IsModuleFile("ts") && !IsModuleFile("x.tsx")
  {
    assert "ping.ts"[4..] == ".ts";
    assert "a.d.ts"[3..] == ".ts";
    assert ".js"[0..] == ".js";
  }

  /** The message recorded for a module without a truthy default export. */
  function NotAHandlerMessage(file: string): string
  {
    file + " is not a REST handler"
  }

  /** The message recorded for a module whose loading throws. */
  function ImportFailedMessage(file: string): string
  {
    file + " failed to import"
  }

  /** A failure message names its file and its kind: no two files, and no
      two kinds of failure, share a message. */
  lemma FailureMessagesIdentifyFile(a: string, b: string)
    ensures NotAHandlerMessage(a) == NotAHandlerMessage(b) ==> a == b
    ensures ImportFailedMessage(a) == ImportFailedMessage(b) ==> a == b
    ensures NotAHandlerMessage(a) != ImportFailedMessage(b)
  {
    if NotAHandlerMessage(a) == NotAHandlerMessage(b) {
      assert a == NotAHandlerMessage(a)[..|a|];
    }
    if ImportFailedMessage(a) == ImportFailedMessage(b) {
      assert a == ImportFailedMessage(a)[..|a|];
    }
    var m, n := NotAHandlerMessage(a), ImportFailedMessage(b);
    assert m[|m| - 1] == 'r' && n[|n| - 1] == 't';
  }

  /** A file the scan reached and loads. */
  predicate Loads(f: FileRef)
  {
    IsModuleFile(f.name)
  }

  /** A module file that ends up registered. */
  predicate Registers(f: FileRef)
  {
    IsModuleFile(f.name) && f.load.Default?
  }

  /** A module file that ends up as a failure message. */
  predicate Fails(f: FileRef)
  {
    IsModuleFile(f.name) && !f.load.Default?
  }

  /** The failure message of a module file that does not register. */
  function FailureMessage(f: FileRef): string
  {
    if f.load.Throws? then ImportFailedMessage(f.name) else NotAHandlerMessage(f.name)
  }

  /** Loading one file the scan reached: a file that is not a module is
      ignored; a module either registers its handler or records exactly
      one failure. */
  function LoadFile(f: FileRef): (r: Scanned)
    ensures !IsModuleFile(f.name) ==> r == Nothing
    ensures IsModuleFile(f.name) ==> |r.registered| + |r.failures| == 1
    ensures Registers(f) <==> |r.registered| == 1
    ensures Registers(f) ==> r.registered == multiset{f.load.handler}
    ensures Fails(f) <==> r.failures == multiset{FailureMessage(f)}
  {
    if !IsModuleFile(f.name) then Nothing
    else
      match f.load
      case Throws(_) => Scanned(multiset{}, multiset{ImportFailedMessage(f.name)})
      case NoDefault => Scanned(multiset{}, multiset{NotAHandlerMessage(f.name)})
      case Default(h) => Scanned(multiset{h}, multiset{})
  }

  /** Number of files in `fs` satisfying `p`. */
  function CountIf(fs: seq<FileRef>, p: FileRef -> bool): nat
  {
    if |fs| == 0 then 0 else (if p(fs[0]) then 1 else 0) + CountIf(fs[1..], p)
  }

  /** Number of files in `fs` that register the handler `h`. */
  function RegistrationsOf(fs: seq<FileRef>, h: RESTHandler): nat
  {
    if |fs| == 0 then 0
    else (if Registers(fs[0]) && fs[0].load.handler == h then 1 else 0) + RegistrationsOf(fs[1..], h)
  }

  /** Number of files in `fs` that fail with the message `m`. */
  function FailuresWith(fs: seq<FileRef>, m: string): nat
  {
    if |fs| == 0 then 0
    else (if Fails(fs[0]) && FailureMessage(fs[0]) == m then 1 else 0) + FailuresWith(fs[1..], m)
  }

  /** Loading every file of a listing, in any order. */
  function LoadAll(fs: seq<FileRef>): (r: Scanned)
    ensures |r.registered| == CountIf(fs, Registers)
    ensures |r.failures| == CountIf(fs, Fails)
  {
    if |fs| == 0 then Nothing else Merge(LoadFile(fs[0]), LoadAll(fs[1..]))
  }

  /** A handler is registered once per module file of the listing whose
      default export it is, and a failure message is recorded once per
      module file of the listing that fails with it; in particular every
      registration and every failure comes from some file. */
  lemma {:induction false} LoadAllContents(fs: seq<FileRef>)
    ensures forall h :: LoadAll(fs).registered[h] == RegistrationsOf(fs, h)
    ensures forall m :: LoadAll(fs).failures[m] == FailuresWith(fs, m)
    ensures forall h :: h in LoadAll(fs).registered ==> exists f :: f in fs && Registers(f) && f.load.handler == h
    ensures forall m :: m in LoadAll(fs).failures ==> exists f :: f in fs && Fails(f) && m == FailureMessage(f)
    decreases |fs|
  {
    if |fs| > 0 {
      LoadAllContents(fs[1..]);
      var one := LoadFile(fs[0]);
      forall h ensures LoadAll(fs).registered[h] == RegistrationsOf(fs, h) {
        assert one.registered[h] == (if Registers(fs[0]) && fs[0].load.handler == h then 1 else 0);
      }
      forall m ensures LoadAll(fs).failures[m] == FailuresWith(fs, m) {
        assert one.failures[m] == (if Fails(fs[0]) && FailureMessage(fs[0]) == m then 1 else 0);
      }
      forall h | h in LoadAll(fs).registered ensures exists f :: f in fs && Registers(f) && f.load.handler == h {
        if h !in LoadAll(fs[1..]).registered {
          assert fs[0] in fs;
        } else {
          var f :| f in fs[1..] && Registers(f) && f.load.handler == h;
          assert f in fs;
        }
      }
      forall m | m in LoadAll(fs).failures ensures exists f :: f in fs && Fails(f) && m == FailureMessage(f) {
        if m !in LoadAll(fs[1..]).failures {
          assert fs[0] in fs;
        } else {
          var f :| f in fs[1..] && Fails(f) && m == FailureMessage(f);
          assert f in fs;
        }
      }
    }
  }

  /** Loading a concatenation merges the loads of its parts. */
  lemma {:induction false} LoadAllAppend(a: seq<FileRef>, b: seq<FileRef>)
    ensures LoadAll(a + b) == Merge(LoadAll(a), LoadAll(b))
    decreases |a|
  {
    if |a| == 0 {
      assert a + b == b;
    } else {
      assert (a + b)[0] == a[0];
      assert (a + b)[1..] == a[1..] + b;
      LoadAllAppend(a[1..], b);
      MergeAssociative(LoadFile(a[0]), LoadAll(a[1..]), LoadAll(b));
    }
  }

  /** Every file the scan reaches below `e`, in listing order; nothing
      below an unreadable entry is reached. */
  function Files(e: Entry): seq<FileRef>
    decreases e, 1
  {
    match e
    case Unreadable(_) => []
    case File(name, load) => [FileRef(name, load)]
    case Dir(_, children) => FilesOf(children)
  }

  function FilesOf(cs: seq<Entry>): seq<FileRef>
    decreases cs, 0
  {
    if |cs| == 0 then [] else Files(cs[0]) + FilesOf(cs[1..])
  }

  /** The scan of one entry (`_import` on a directory, the per-entry
      callback on anything else): a directory is scanned recursively, a
      file is loaded if it is a module, and the outcome is exactly that of
      loading every file the scan reaches. */
  function ScanEntry(e: Entry): (r: Scanned)
    ensures r == LoadAll(Files(e))
    decreases e, 1
  {
    match e
    case Unreadable(_) => Nothing
    case File(name, load) =>
      assert [FileRef(name, load)][1..] == [];
      LoadFile(FileRef(name, load))
    case Dir(_, children) => ScanChildren(children)
  }

  /** The entries of one directory, processed concurrently: their outcomes
      are merged. */
  function ScanChildren(cs: seq<Entry>): (r: Scanned)
    ensures r == LoadAll(FilesOf(cs))
    decreases cs, 0
  {
    if |cs| == 0 then Nothing
    else
      LoadAllAppend(Files(cs[0]), FilesOf(cs[1..]));
      Merge(ScanEntry(cs[0]), ScanChildren(cs[1..]))
  }

  /** Registrations plus failures equal the number of module files the scan
      reaches; every other file is ignored. */
  lemma ScanAccountsForEveryModule(e: Entry)
    ensures |ScanEntry(e).registered| == CountIf(Files(e), Registers)
    ensures |ScanEntry(e).failures| == CountIf(Files(e), Fails)
    ensures |ScanEntry(e).registered| + |ScanEntry(e).failures| == CountIf(Files(e), Loads)
  {
    CountSplits(Files(e));
  }

  lemma {:induction false} CountSplits(fs: seq<FileRef>)
    ensures CountIf(fs, Registers) + CountIf(fs, Fails) == CountIf(fs, Loads)
    decreases |fs|
  {
    if |fs| > 0 {
      CountSplits(fs[1..]);
    }
  }

  /** Splitting a directory listing in two splits the scan outcome. */
  lemma {:induction false} ScanChildrenAppend(a: seq<Entry>, b: seq<Entry>)
    ensures ScanChildren(a + b) == Merge(ScanChildren(a), ScanChildren(b))
    decreases |a|
  {
    if |a| == 0 {
      assert a + b == b;
    } else {
      assert (a + b)[1..] == a[1..] + b;
      assert (a + b)[0] == a[0];
      ScanChildrenAppend(a[1..], b);
      MergeAssociative(ScanEntry(a[0]), ScanChildren(a[1..]), ScanChildren(b));
    }
  }

  lemma MergeSwap(a: Scanned, b: Scanned, c: Scanned)
    ensures Merge(a, Merge(b, c)) == Merge(b, Merge(a, c))
  {
    assert a.registered + (b.registered + c.registered) == b.registered + (a.registered + c.registered);
    assert a.failures + (b.failures + c.failures) == b.failures + (a.failures + c.failures);
  }

  /** Taking the first element off `cs` and the same element off `ps` at
      position `k` keeps two permutations permutations of each other. */
  lemma RemoveMatchingElement(cs: seq<Entry>, ps: seq<Entry>, k: nat)
    requires |cs| > 0 && k < |ps| && ps[k] == cs[0]
    requires multiset(cs) == multiset(ps)
    ensures multiset(cs[1..]) == multiset(ps[..k] + ps[k + 1..])
  {
    var pre, post := ps[..k], ps[k + 1..];
    assert ps == pre + [ps[k]] + post;
    assert multiset(ps) == multiset(pre) + multiset{ps[k]} + multiset(post);
    assert cs == [cs[0]] + cs[1..];
    assert multiset(cs) == multiset{cs[0]} + multiset(cs[1..]);
    assert multiset(pre + post) == multiset(pre) + multiset(post);
    forall y ensures multiset(cs[1..])[y] == multiset(pre + post)[y] {
      assert multiset(cs)[y] == multiset(ps)[y];
    }
  }

  /** Taking entry `k` out of a listing and putting it in front does not
      change the outcome. */
  lemma ScanChildrenMoveToFront(ps: seq<Entry>, k: nat)
    requires k < |ps|
    ensures ScanChildren(ps) == Merge(ScanEntry(ps[k]), ScanChildren(ps[..k] + ps[k + 1..]))
  {
    var before, x, after := ps[..k], ps[k], ps[k + 1..];
    var sx, sb, sa := ScanEntry(x), ScanChildren(before), ScanChildren(after);
    ScanChildrenAppend(before, after);
    var tail := [x] + after;
    assert tail[0] == x && tail[1..] == after;
    assert ScanChildren(tail) == Merge(sx, sa);
    assert ps == before + tail;
    ScanChildrenAppend(before, tail);
    MergeSwap(sb, sx, sa);
  }

  /** The position of an entry in a listing that holds it. */
  function IndexOf(ps: seq<Entry>, x: Entry): (k: nat)
    requires x in ps
    ensures k < |ps| && ps[k] == x
  {
    if ps[0] == x then 0 else 1 + IndexOf(ps[1..], x)
  }

  /** The outcome does not depend on the order in which the file system
      lists a directory, nor on the order in which its entries complete. */
  lemma {:induction false} ScanIgnoresListingOrder(cs: seq<Entry>, ps: seq<Entry>)
    requires multiset(cs) == multiset(ps)
    ensures ScanChildren(cs) == ScanChildren(ps)
    decreases |cs|
  {
    if |cs| == 0 {
      assert |ps| == |multiset(ps)| == 0;
    } else {
      assert cs[0] in multiset(ps);
      var k := IndexOf(ps, cs[0]);
      var rest := ps[..k] + ps[k + 1..];
      RemoveMatchingElement(cs, ps, k);
      ScanIgnoresListingOrder(cs[1..], rest);
      ScanChildrenMoveToFront(ps, k);
    }
  }

  /** The references of the handlers in `hs`. */
  function Refs(hs: seq<RESTHandler>): set<Ref>
  {
    if |hs| == 0 then {} else {hs[0].ref} + Refs(hs[1..])
  }

  /** A reference is among those of `hs` exactly when some handler of `hs`
      has it, whatever the order of `hs`. */
  lemma {:induction false} RefsMembers(hs: seq<RESTHandler>)
    ensures forall x :: x in Refs(hs) <==> exists h :: h in multiset(hs) && h.ref == x
    decreases |hs|
  {
    if |hs| > 0 {
      RefsMembers(hs[1..]);
      assert hs == [hs[0]] + hs[1..];
      assert multiset(hs) == multiset{hs[0]} + multiset(hs[1..]);
    }
  }

  /** The bindings `addHandler` installs for `hs`, one each, in order. */
  function BindingsFor(hs: seq<RESTHandler>): (r: seq<Binding>)
    ensures |r| == |hs|
  {
    if |hs| == 0 then [] else [Binding(hs[0].httpMethod, hs[0].path, hs[0])] + BindingsFor(hs[1..])
  }

  /** The `k`-th binding installed is the one for the `k`-th handler. */
  lemma {:induction false} BindingsForAt(hs: seq<RESTHandler>, k: nat)
    requires k < |hs|
    ensures BindingsFor(hs)[k] == Binding(hs[k].httpMethod, hs[k].path, hs[k])
    decreases k
  {
    if k > 0 {
      BindingsForAt(hs[1..], k - 1);
    }
  }

  /** The registry after `addHandler` was called on each handler, in order:
      all of them are live and their bindings follow the earlier ones. */
  function AddAll(s: Registry, hs: seq<RESTHandler>): (r: Registry)
    ensures r.live == s.live + Refs(hs)
    ensures r.bindings == s.bindings + BindingsFor(hs)
    ensures r.getUser == s.getUser
    decreases |hs|
  {
    if |hs| == 0 then
      assert s.bindings + BindingsFor(hs) == s.bindings;
      s
    else
      var b := Binding(hs[0].httpMethod, hs[0].path, hs[0]);
      var s1 := AddHandler(s, hs[0]);
      assert s1.bindings == s.bindings + [b];
      var r := AddAll(s1, hs[1..]);
      assert r.bindings == (s.bindings + [b]) + BindingsFor(hs[1..]);
      assert BindingsFor(hs) == [b] + BindingsFor(hs[1..]);
      assert (s.bindings + [b]) + BindingsFor(hs[1..]) == s.bindings + ([b] + BindingsFor(hs[1..]));
      r
  }

  /** `addHandler` on each handler in turn keeps the registry valid. */
  lemma {:induction false} AddAllKeepsValid(s: Registry, hs: seq<RESTHandler>)
    ensures Valid(s) ==> Valid(AddAll(s, hs))
    decreases |hs|
  {
    if Valid(s) && |hs| > 0 {
      AddHandlerKeepsValid(s, hs[0]);
      AddAllKeepsValid(AddHandler(s, hs[0]), hs[1..]);
    }
  }

  /** The binding after the `k`-th earlier one belongs to the `k`-th
      handler registered, and is installed for its route. */
  lemma AddAllBindsInOrder(s: Registry, hs: seq<RESTHandler>)
    ensures forall k :: 0 <= k < |hs| ==>
      AddAll(s, hs).bindings[|s.bindings| + k] == Binding(hs[k].httpMethod, hs[k].path, hs[k])
  {
    forall k | 0 <= k < |hs|
      ensures AddAll(s, hs).bindings[|s.bindings| + k] == Binding(hs[k].httpMethod, hs[k].path, hs[k])
    {
      BindingsForAt(hs, k);
    }
  }

  /** The files `_import` reaches from the path it is given. The path is
      listed with `readdir` first, so only a directory yields anything: a
      file or an unreadable entry given as the root rejects at once. */
  function RootFiles(tree: Entry): seq<FileRef>
  {
    if tree.Dir? then FilesOf(tree.children) else []
  }

  /** The scan `import(directory)` starts: the root's entries, each
      scanned as `ScanEntry` does. */
  function ScanRoot(tree: Entry): (r: Scanned)
    ensures r == LoadAll(RootFiles(tree))
    ensures tree.Dir? ==> r == ScanEntry(tree)
    ensures !tree.Dir? ==> r == Nothing
  {
    if tree.Dir? then ScanChildren(tree.children) else Nothing
  }

  /** The final outcome of importing a directory tree. */
  datatype Imported = Imported(registry: Registry, failures: multiset<string>)

  /** `import(directory)` once the scan has completed. `completion` is the
      order in which the loaded modules registered; it is decided by the
      scheduler and is any ordering of the scan's registrations. */
  function Import(s: Registry, tree: Entry, completion: seq<RESTHandler>): (r: Imported)
    requires multiset(completion) == ScanRoot(tree).registered
    ensures r.failures == ScanRoot(tree).failures
    ensures !tree.Dir? ==> r.registry == s && r.failures == multiset{}
    ensures forall x :: x in r.registry.live <==> x in s.live || exists h :: h in ScanRoot(tree).registered && h.ref == x
    ensures r.registry.bindings == s.bindings + BindingsFor(completion)
    ensures |r.registry.bindings| == |s.bindings| + |ScanRoot(tree).registered|
    ensures forall k :: 0 <= k < |completion| ==>
      r.registry.bindings[|s.bindings| + k] == Binding(completion[k].httpMethod, completion[k].path, completion[k])
    ensures |r.registry.bindings| - |s.bindings| + |r.failures| == CountIf(RootFiles(tree), Loads)
    ensures r.registry.getUser == s.getUser
    ensures Valid(s) ==> Valid(r.registry)
  {
    CountSplits(RootFiles(tree));
    RefsMembers(completion);
    assert |completion| == |multiset(completion)|;
    AddAllBindsInOrder(s, completion);
    AddAllKeepsValid(s, completion);
    assert !tree.Dir? ==> completion == [];
    Imported(AddAll(s, completion), ScanRoot(tree).failures)
  }
}
