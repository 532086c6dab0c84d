/**
 The walk that collects a directory tree for export: a stack of directories, refused symbolic links, and limits on
 the size of a file, the number of files and their total size.
 */
module ArchiveWalk {
  import opened ByteOrder
  import opened Lists
  import opened Prelude

  const EXPORT_MAX_BYTES := 256 * 1024 * 1024
  const EXPORT_MAX_FILE_BYTES := 64 * 1024 * 1024
  const EXPORT_MAX_FILES := 20000

  const SLASH: byte := 47

  datatype Node =
    | File(bytes: nat, sha256: string)
    | Directory(entries: seq<Keyed<Node>>)
    | Symlink
    | Special

  type Entry = Keyed<Node>

  datatype Info = Info(bytes: nat, sha256: string)

  type Listed = Keyed<Info>

  datatype Refusal = RejectsSymlinks | ExceedsLimits

  // ----- What is to be exported -----

  function Join(directory: Bytes, name: Bytes): Bytes {
    if directory == [] then name else directory + [SLASH] + name
  }

  /** The files of an entry, recursively, without the excluded paths. */
  function One(directory: Bytes, e: Entry, excluded: set<Bytes>): seq<Listed>
    decreases e, 1
  {
    var path := Join(directory, e.key);
    match e.value
    case File(bytes, sha256) => if path in excluded then [] else [Keyed(path, Info(bytes, sha256))]
    case Directory(entries) => Selected(path, entries, excluded)
    case _ => []
  }

  function Selected(directory: Bytes, entries: seq<Entry>, excluded: set<Bytes>): seq<Listed>
    decreases entries, 0
  {
    if entries == [] then []
    else Selected(directory, entries[..|entries| - 1], excluded) + One(directory, entries[|entries| - 1], excluded)
  }

  predicate CleanNode(e: Entry)
    decreases e, 1
  {
    !e.value.Symlink? && (e.value.Directory? ==> Clean(e.value.entries))
  }

  /** No symbolic link anywhere, excluded or not. */
  predicate Clean(entries: seq<Entry>)
    decreases entries, 0
  {
    entries == [] || (Clean(entries[..|entries| - 1]) && CleanNode(entries[|entries| - 1]))
  }

  function DirectoriesIn(e: Entry): nat
    decreases e, 1
  {
    if e.value.Directory? then 1 + Directories(e.value.entries) else 0
  }

  function Directories(entries: seq<Entry>): nat
    decreases entries, 0
  {
    if entries == [] then 0 else Directories(entries[..|entries| - 1]) + DirectoriesIn(entries[|entries| - 1])
  }

  function TotalBytes(files: seq<Listed>): nat {
    if files == [] then 0 else TotalBytes(files[..|files| - 1]) + files[|files| - 1].value.bytes
  }

  predicate WithinLimits(files: seq<Listed>) {
    && |files| <= EXPORT_MAX_FILES
    && TotalBytes(files) <= EXPORT_MAX_BYTES
    && forall f :: f in files ==> f.value.bytes <= EXPORT_MAX_FILE_BYTES
  }

  // ----- Which files these are -----

  /** Following these names from the entries of a directory leads to this node. */
  predicate NodeAt(entries: seq<Entry>, names: seq<Bytes>, node: Node)
    decreases |names|
  {
    names != [] && exists e :: e in entries && e.key == names[0] && LeadsTo(e, names, node)
  }

  predicate LeadsTo(e: Entry, names: seq<Bytes>, node: Node)
    requires names != []
    decreases |names|, 0
  {
    if |names| == 1 then e.value == node else e.value.Directory? && NodeAt(e.value.entries, names[1..], node)
  }

  /** The path these names stand for, below a directory. */
  function PathOf(directory: Bytes, names: seq<Bytes>): Bytes
    decreases |names|
  {
    if names == [] then directory else PathOf(Join(directory, names[0]), names[1..])
  }

  function Slashed(names: seq<Bytes>): Bytes {
    if names == [] then []
    else if |names| == 1 then names[0]
    else names[0] + [SLASH] + Slashed(names[1..])
  }

  lemma {:induction false} BelowIsSlashed(directory: Bytes, names: seq<Bytes>)
    requires directory != [] && names != []
    ensures PathOf(directory, names) == directory + [SLASH] + Slashed(names)
    decreases |names|
  {
    var path := Join(directory, names[0]);
    if |names| > 1 {
      BelowIsSlashed(path, names[1..]);
      assert path + [SLASH] + Slashed(names[1..])
          == directory + [SLASH] + (names[0] + [SLASH] + Slashed(names[1..]));
    }
  }

  /** An exported path is the names on the way, joined by slashes. */
  lemma PathIsSlashed(names: seq<Bytes>)
    requires names != [] && names[0] != []
    ensures PathOf([], names) == Slashed(names)
  {
    if |names| > 1 {
      BelowIsSlashed(names[0], names[1..]);
    }
  }

  lemma LastOrShorter(shorter: seq<Entry>, last: Entry, names: seq<Bytes>, node: Node)
    ensures NodeAt(shorter + [last], names, node) <==> NodeAt(shorter, names, node) || NodeAt([last], names, node)
  {
    forall e ensures e in shorter + [last] <==> e in shorter || e == last {}
  }

  ghost predicate ListedAt(directory: Bytes, entries: seq<Entry>, names: seq<Bytes>, f: Listed) {
    PathOf(directory, names) == f.key && NodeAt(entries, names, File(f.value.bytes, f.value.sha256))
  }

  /** Exactly the files of the tree, at the paths they have, unless their path is excluded. */
  lemma {:induction false} SelectedAreTheFiles(
    directory: Bytes, entries: seq<Entry>, excluded: set<Bytes>, f: Listed)
    ensures f in Selected(directory, entries, excluded)
            <==> f.key !in excluded && exists names :: ListedAt(directory, entries, names, f)
    decreases entries, 1
  {
    if entries != [] {
      var shorter, last := entries[..|entries| - 1], entries[|entries| - 1];
      assert entries == shorter + [last];
      SelectedAreTheFiles(directory, shorter, excluded, f);
      OneIsTheFiles(directory, last, excluded, f);
      var file := File(f.value.bytes, f.value.sha256);
      if names :| ListedAt(directory, entries, names, f) {
        LastOrShorter(shorter, last, names, file);
        assert ListedAt(directory, shorter, names, f) || ListedAt(directory, [last], names, f);
      }
      if names :| ListedAt(directory, shorter, names, f) {
        LastOrShorter(shorter, last, names, file);
        assert ListedAt(directory, entries, names, f);
      }
      if names :| ListedAt(directory, [last], names, f) {
        LastOrShorter(shorter, last, names, file);
        assert ListedAt(directory, entries, names, f);
      }
    }
  }

  lemma {:induction false} OneIsTheFiles(directory: Bytes, e: Entry, excluded: set<Bytes>, f: Listed)
    ensures f in One(directory, e, excluded)
            <==> f.key !in excluded && exists names :: ListedAt(directory, [e], names, f)
    decreases e, 0
  {
    var path := Join(directory, e.key);
    var file := File(f.value.bytes, f.value.sha256);
    if e.value.Directory? {
      SelectedAreTheFiles(path, e.value.entries, excluded, f);
      if names :| ListedAt(path, e.value.entries, names, f) {
        assert ([e.key] + names)[1..] == names;
        assert LeadsTo(e, [e.key] + names, file);
        assert ListedAt(directory, [e], [e.key] + names, f);
      }
      if names :| ListedAt(directory, [e], names, f) {
        assert LeadsTo(e, names, file);
        assert ListedAt(path, e.value.entries, names[1..], f);
      }
    } else {
      if names :| ListedAt(directory, [e], names, f) {
        assert LeadsTo(e, names, file) && names == [e.key];
        assert names[1..] == [] && PathOf(directory, names) == PathOf(path, []) == path;
        assert e.value == file && path == f.key;
      }
      assert f == Keyed(f.key, Info(f.value.bytes, f.value.sha256));
      if e.value == file && path == f.key {
        assert [e.key][1..] == [];
        assert LeadsTo(e, [e.key], file) && PathOf(directory, [e.key]) == PathOf(path, []);
        assert ListedAt(directory, [e], [e.key], f);
      }
    }
  }

  /** Not clean: names lead to a symbolic link, excluded or not. */
  lemma {:induction false} UncleanHasALink(entries: seq<Entry>)
    ensures !Clean(entries) <==> exists names :: NodeAt(entries, names, Symlink)
    decreases entries, 1
  {
    if entries != [] {
      var shorter, last := entries[..|entries| - 1], entries[|entries| - 1];
      assert entries == shorter + [last];
      UncleanHasALink(shorter);
      LinkOfOne(last);
      if names :| NodeAt(entries, names, Symlink) {
        LastOrShorter(shorter, last, names, Symlink);
      }
      if names :| NodeAt(shorter, names, Symlink) {
        LastOrShorter(shorter, last, names, Symlink);
      }
      if names :| NodeAt([last], names, Symlink) {
        LastOrShorter(shorter, last, names, Symlink);
      }
    }
  }

  lemma {:induction false} LinkOfOne(e: Entry)
    ensures !CleanNode(e) <==> exists names :: NodeAt([e], names, Symlink)
    decreases e, 0
  {
    if e.value.Directory? {
      UncleanHasALink(e.value.entries);
      if names :| NodeAt(e.value.entries, names, Symlink) {
        assert ([e.key] + names)[1..] == names;
        assert LeadsTo(e, [e.key] + names, Symlink);
        assert NodeAt([e], [e.key] + names, Symlink);
      }
      if names :| NodeAt([e], names, Symlink) {
        assert LeadsTo(e, names, Symlink);
        assert NodeAt(e.value.entries, names[1..], Symlink);
      }
    } else {
      if names :| NodeAt([e], names, Symlink) {
        assert LeadsTo(e, names, Symlink);
      }
      if e.value.Symlink? {
        assert LeadsTo(e, [e.key], Symlink);
        assert NodeAt([e], [e.key], Symlink);
      }
    }
  }

  // ----- Limits do not depend on the order -----

  lemma {:induction false} TotalConcat(a: seq<Listed>, b: seq<Listed>)
    ensures TotalBytes(a + b) == TotalBytes(a) + TotalBytes(b)
  {
    if b == [] {
      assert a + b == a;
    } else {
      TotalConcat(a, b[..|b| - 1]);
      assert (a + b)[..|a + b| - 1] == a + b[..|b| - 1];
    }
  }

  lemma {:induction false} SameTotal(a: seq<Listed>, b: seq<Listed>)
    requires Same(a, b)
    ensures TotalBytes(a) == TotalBytes(b)
  {
    SameLength(a, b);
    if a != [] {
      var before, after := Remove(a, b);
      var x := a[|a| - 1];
      SameTotal(a[..|a| - 1], before + after);
      TotalConcat(before + [x], after);
      TotalConcat(before, [x]);
      TotalConcat(before, after);
      assert [x][..0] == [];
    }
  }

  lemma SameLimits(a: seq<Listed>, b: seq<Listed>)
    requires Same(a, b)
    ensures WithinLimits(a) <==> WithinLimits(b)
  {
    SameLength(a, b);
    SameTotal(a, b);
    forall f ensures f in a <==> f in b {
      TallyOfMember(a, f);
      TallyOfMember(b, f);
      assert Tally(a, f) == Tally(b, f);
    }
  }

  lemma LimitsOfPart(a: seq<Listed>, b: seq<Listed>)
    requires WithinLimits(a + b)
    ensures WithinLimits(a)
  {
    TotalConcat(a, b);
    forall f | f in a ensures f.value.bytes <= EXPORT_MAX_FILE_BYTES {
      assert f in a + b;
    }
  }

  lemma OneMoreFile(files: seq<Listed>, f: Listed)
    requires WithinLimits(files)
    ensures WithinLimits(files + [f])
            <==> (f.value.bytes <= EXPORT_MAX_FILE_BYTES && |files| < EXPORT_MAX_FILES
                  && TotalBytes(files) + f.value.bytes <= EXPORT_MAX_BYTES)
  {
    assert (files + [f])[..|files|] == files;
    assert f in files + [f];
  }

  // ----- The order of a directory does not matter -----

  lemma {:induction false} InsertedEntry(
    directory: Bytes, entries: seq<Entry>, e: Entry, excluded: set<Bytes>, f: Listed)
    ensures Tally(Selected(directory, Insert(entries, e), excluded), f)
            == Tally(Selected(directory, entries, excluded), f) + Tally(One(directory, e, excluded), f)
    ensures Clean(Insert(entries, e)) <==> Clean(entries) && CleanNode(e)
    ensures Directories(Insert(entries, e)) == Directories(entries) + DirectoriesIn(e)
  {
    if entries == [] || Leq(entries[|entries| - 1].key, e.key) {
      assert (entries + [e])[..|entries|] == entries;
      TallyConcat(Selected(directory, entries, excluded), One(directory, e, excluded), f);
    } else {
      var shorter, last := entries[..|entries| - 1], entries[|entries| - 1];
      InsertedEntry(directory, shorter, e, excluded, f);
      assert (Insert(shorter, e) + [last])[..|Insert(shorter, e)|] == Insert(shorter, e);
      TallyConcat(Selected(directory, Insert(shorter, e), excluded), One(directory, last, excluded), f);
      TallyConcat(Selected(directory, shorter, excluded), One(directory, last, excluded), f);
    }
  }

  lemma {:induction false} SortedEntries(directory: Bytes, entries: seq<Entry>, excluded: set<Bytes>, f: Listed)
    ensures Tally(Selected(directory, Sort(entries), excluded), f) == Tally(Selected(directory, entries, excluded), f)
    ensures Clean(Sort(entries)) <==> Clean(entries)
    ensures Directories(Sort(entries)) == Directories(entries)
  {
    if entries != [] {
      var shorter, last := entries[..|entries| - 1], entries[|entries| - 1];
      SortedEntries(directory, shorter, excluded, f);
      InsertedEntry(directory, Sort(shorter), last, excluded, f);
      TallyConcat(Selected(directory, shorter, excluded), One(directory, last, excluded), f);
    }
  }

  // ----- The stack -----

  datatype Pending = Pending(path: Bytes, entries: seq<Entry>)

  function Rest(stack: seq<Pending>, excluded: set<Bytes>): seq<Listed> {
    if stack == [] then []
    else
      var top := stack[|stack| - 1];
      Rest(stack[..|stack| - 1], excluded) + Selected(top.path, top.entries, excluded)
  }

  predicate CleanStack(stack: seq<Pending>) {
    forall p :: p in stack ==> Clean(p.entries)
  }

  function Weight(stack: seq<Pending>): nat {
    if stack == [] then 0 else Weight(stack[..|stack| - 1]) + 1 + Directories(stack[|stack| - 1].entries)
  }

  /** Files listed so far, the directories on the stack, and what is left of the current one, in this order. */
  ghost function Everything(
    files: seq<Listed>, stack: seq<Pending>, path: Bytes, left: seq<Entry>, excluded: set<Bytes>): seq<Listed>
  {
    files + Rest(stack, excluded) + Selected(path, left, excluded)
  }

  lemma TallyEverything(
    files: seq<Listed>, stack: seq<Pending>, path: Bytes, left: seq<Entry>, excluded: set<Bytes>, f: Listed)
    ensures Tally(Everything(files, stack, path, left, excluded), f)
            == Tally(files, f) + Tally(Rest(stack, excluded), f) + Tally(Selected(path, left, excluded), f)
  {
    TallyConcat(files + Rest(stack, excluded), Selected(path, left, excluded), f);
    TallyConcat(files, Rest(stack, excluded), f);
  }

  lemma PushPending(stack: seq<Pending>, p: Pending, excluded: set<Bytes>)
    ensures Rest(stack + [p], excluded) == Rest(stack, excluded) + Selected(p.path, p.entries, excluded)
    ensures Weight(stack + [p]) == Weight(stack) + 1 + Directories(p.entries)
    ensures CleanStack(stack + [p]) <==> CleanStack(stack) && Clean(p.entries)
  {
    assert (stack + [p])[..|stack|] == stack;
    assert p in stack + [p];
    if CleanStack(stack + [p]) {
      forall q | q in stack ensures Clean(q.entries) {
        assert q in stack + [p];
      }
    }
  }

  /** Taking a directory off the stack and sorting it. */
  lemma Popped(
    files: seq<Listed>, stack: seq<Pending>, path: Bytes, entries: seq<Entry>, excluded: set<Bytes>, all: seq<Listed>)
    requires Same(files + Rest(stack + [Pending(path, entries)], excluded), all)
    ensures Same(Everything(files, stack, path, Sort(entries), excluded), all)
    ensures Weight(stack + [Pending(path, entries)]) == Weight(stack) + 1 + Directories(Sort(entries))
    ensures CleanStack(stack + [Pending(path, entries)]) <==> CleanStack(stack) && Clean(Sort(entries))
  {
    SortedEntries(path, entries, excluded, Keyed([], Info(0, "")));
    PushPending(stack, Pending(path, entries), excluded);
    forall f ensures Tally(Everything(files, stack, path, Sort(entries), excluded), f) == Tally(all, f) {
      TallyEverything(files, stack, path, Sort(entries), excluded, f);
      SortedEntries(path, entries, excluded, f);
      TallyConcat(files, Rest(stack + [Pending(path, entries)], excluded), f);
      TallyConcat(Rest(stack, excluded), Selected(path, entries, excluded), f);
      assert Tally(files + Rest(stack + [Pending(path, entries)], excluded), f) == Tally(all, f);
    }
  }

  /** An entry that lists these files and pushes these directories, taken from the end of what is left. */
  lemma Taken(
    files: seq<Listed>, stack: seq<Pending>, path: Bytes, left: seq<Entry>, e: Entry, excluded: set<Bytes>,
    more: seq<Listed>, pushed: seq<Pending>, all: seq<Listed>)
    requires Same(Everything(files, stack, path, left + [e], excluded), all)
    requires One(path, e, excluded) == more + Rest(pushed, excluded)
    requires more == [] || pushed == []
    requires pushed == [] || |pushed| == 1
    ensures Same(Everything(files + more, stack + pushed, path, left, excluded), all)
  {
    forall f ensures Tally(Everything(files + more, stack + pushed, path, left, excluded), f) == Tally(all, f) {
      TallyEverything(files, stack, path, left + [e], excluded, f);
      TallyEverything(files + more, stack + pushed, path, left, excluded, f);
      assert (left + [e])[..|left|] == left;
      TallyConcat(Selected(path, left, excluded), One(path, e, excluded), f);
      TallyConcat(files, more, f);
      TallyConcat(more, Rest(pushed, excluded), f);
      assert Tally(Everything(files, stack, path, left + [e], excluded), f) == Tally(all, f);
      if pushed == [] {
        assert stack + pushed == stack;
      } else {
        assert pushed == [pushed[0]] && pushed[..0] == [];
        PushPending(stack, pushed[0], excluded);
        TallyConcat(Rest(stack, excluded), Selected(pushed[0].path, pushed[0].entries, excluded), f);
        TallyConcat([], Selected(pushed[0].path, pushed[0].entries, excluded), f);
      }
    }
  }

  lemma TakenCounts(left: seq<Entry>, e: Entry)
    ensures Directories(left + [e]) == Directories(left) + DirectoriesIn(e)
    ensures Clean(left + [e]) <==> Clean(left) && CleanNode(e)
  {
    assert (left + [e])[..|left|] == left;
  }

  /** A file that breaks a limit now breaks it in the whole tree. */
  lemma TooMuch(
    files: seq<Listed>, stack: seq<Pending>, path: Bytes, left: seq<Entry>, e: Entry, excluded: set<Bytes>, f: Listed,
    all: seq<Listed>)
    requires Same(Everything(files, stack, path, left + [e], excluded), all)
    requires One(path, e, excluded) == [f] && !WithinLimits(files + [f])
    ensures !WithinLimits(all)
  {
    assert [f] + Rest([], excluded) == [f];
    Taken(files, stack, path, left, e, excluded, [f], [], all);
    assert stack + [] == stack;
    var whole := Everything(files + [f], stack, path, left, excluded);
    assert whole == (files + [f]) + (Rest(stack, excluded) + Selected(path, left, excluded));
    SameLimits(whole, all);
    if WithinLimits(whole) {
      LimitsOfPart(files + [f], Rest(stack, excluded) + Selected(path, left, excluded));
    }
  }

  lemma DirectoryTaken(
    files: seq<Listed>, stack: seq<Pending>, path: Bytes, left: seq<Entry>, e: Entry, excluded: set<Bytes>,
    all: seq<Listed>)
    requires Same(Everything(files, stack, path, left + [e], excluded), all) && e.value.Directory?
    ensures var pushed := stack + [Pending(Join(path, e.key), e.value.entries)];
            && Same(Everything(files, pushed, path, left, excluded), all)
            && Weight(pushed) == Weight(stack) + DirectoriesIn(e)
            && (CleanStack(pushed) <==> CleanStack(stack) && CleanNode(e))
  {
    var p := Pending(Join(path, e.key), e.value.entries);
    RestOfOne(p, excluded);
    assert [] + Rest([p], excluded) == Rest([p], excluded);
    Taken(files, stack, path, left, e, excluded, [], [p], all);
    assert files + [] == files;
    PushPending(stack, p, excluded);
  }

  lemma FileTaken(
    files: seq<Listed>, stack: seq<Pending>, path: Bytes, left: seq<Entry>, e: Entry, excluded: set<Bytes>, f: Listed,
    all: seq<Listed>)
    requires Same(Everything(files, stack, path, left + [e], excluded), all) && One(path, e, excluded) == [f]
    ensures Same(Everything(files + [f], stack, path, left, excluded), all)
    ensures TotalBytes(files + [f]) == TotalBytes(files) + f.value.bytes
  {
    assert [f] + Rest([], excluded) == [f];
    Taken(files, stack, path, left, e, excluded, [f], [], all);
    assert stack + [] == stack && (files + [f])[..|files|] == files;
  }

  lemma NothingTaken(
    files: seq<Listed>, stack: seq<Pending>, path: Bytes, left: seq<Entry>, e: Entry, excluded: set<Bytes>,
    all: seq<Listed>)
    requires Same(Everything(files, stack, path, left + [e], excluded), all) && One(path, e, excluded) == []
    ensures Same(Everything(files, stack, path, left, excluded), all)
  {
    assert [] + Rest([], excluded) == [];
    Taken(files, stack, path, left, e, excluded, [], [], all);
    assert stack + [] == stack && files + [] == files;
  }

  // ----- The loop -----

  /** The walk in the middle of a directory. */
  datatype Progress = Progress(files: seq<Listed>, bytes: nat, stack: seq<Pending>)

  /** What is listed is within the limits, and with what is left it is everything. */
  ghost predicate OnTheWay(p: Progress, path: Bytes, left: seq<Entry>, excluded: set<Bytes>, all: seq<Listed>) {
    && Same(Everything(p.files, p.stack, path, left, excluded), all)
    && WithinLimits(p.files) && p.bytes == TotalBytes(p.files)
  }

  method VisitEntry(
    path: Bytes, e: Entry, excluded: set<Bytes>, p: Progress, ghost left: seq<Entry>, ghost all: seq<Listed>)
    returns (r: Result<Progress, Refusal>)
    requires OnTheWay(p, path, left + [e], excluded, all)
    ensures r.Ok? ==>
              && OnTheWay(r.value, path, left, excluded, all)
              && (CleanStack(r.value.stack) <==> CleanStack(p.stack) && CleanNode(e))
              && Weight(r.value.stack) == Weight(p.stack) + DirectoriesIn(e)
    ensures r == Err(RejectsSymlinks) ==> !CleanNode(e)
    ensures r == Err(ExceedsLimits) ==> !WithinLimits(all)
  {
    var file := Join(path, e.key);
    if e.value.Symlink? {
      return Err(RejectsSymlinks);
    }
    if e.value.Directory? {
      DirectoryTaken(p.files, p.stack, path, left, e, excluded, all);
      return Ok(p.(stack := p.stack + [Pending(file, e.value.entries)]));
    }
    if !e.value.File? || file in excluded {
      NothingTaken(p.files, p.stack, path, left, e, excluded, all);
      return Ok(p);
    }
    var f := Keyed(file, Info(e.value.bytes, e.value.sha256));
    OneMoreFile(p.files, f);
    if e.value.bytes > EXPORT_MAX_FILE_BYTES || |p.files| >= EXPORT_MAX_FILES
       || p.bytes + e.value.bytes > EXPORT_MAX_BYTES {
      TooMuch(p.files, p.stack, path, left, e, excluded, f, all);
      return Err(ExceedsLimits);
    }
    FileTaken(p.files, p.stack, path, left, e, excluded, f, all);
    r := Ok(Progress(p.files + [f], p.bytes + e.value.bytes, p.stack));
  }

  /** The entries of one directory, last name first: files are listed, directories pushed. */
  method VisitDirectory(path: Bytes, entries: seq<Entry>, excluded: set<Bytes>, start: Progress, ghost all: seq<Listed>)
    returns (r: Result<Progress, Refusal>)
    requires OnTheWay(start, path, entries, excluded, all)
    ensures r.Ok? ==>
              && OnTheWay(r.value, path, [], excluded, all)
              && (CleanStack(r.value.stack) <==> CleanStack(start.stack) && Clean(entries))
              && Weight(r.value.stack) == Weight(start.stack) + Directories(entries)
    ensures r == Err(RejectsSymlinks) ==> !Clean(entries)
    ensures r == Err(ExceedsLimits) ==> !WithinLimits(all)
  {
    var p := start;
    var i := |entries|;
    assert entries[..i] == entries;
    while i > 0
      invariant 0 <= i <= |entries|
      invariant OnTheWay(p, path, entries[..i], excluded, all)
      invariant CleanStack(p.stack) && Clean(entries[..i]) <==> CleanStack(start.stack) && Clean(entries)
      invariant Clean(entries) ==> Clean(entries[..i])
      invariant Weight(p.stack) + Directories(entries[..i]) == Weight(start.stack) + Directories(entries)
    {
      i := i - 1;
      assert entries[..i + 1] == entries[..i] + [entries[i]];
      TakenCounts(entries[..i], entries[i]);
      var next := VisitEntry(path, entries[i], excluded, p, entries[..i], all);
      if next.Err? {
        return next;
      }
      p := next.value;
    }
    r := Ok(p);
  }

  lemma RestOfOne(p: Pending, excluded: set<Bytes>)
    ensures Rest([p], excluded) == Selected(p.path, p.entries, excluded)
  {
    PushPending([], p, excluded);
    assert [] + [p] == [p];
  }

  lemma Finished(files: seq<Listed>, all: seq<Listed>)
    requires Same(files, all)
    ensures Sorted(Sort(files)) && Same(Sort(files), all)
    ensures TotalBytes(files) == TotalBytes(all) && (WithinLimits(files) <==> WithinLimits(all))
  {
    SortIsSorted(files);
    SortIsSame(files);
    SameLimits(files, all);
    SameTotal(files, all);
    forall f ensures Tally(Sort(files), f) == Tally(all, f) {
      assert Tally(Sort(files), f) == Tally(files, f);
    }
  }

  /**
   `collectArchiveFiles`: the walk ends, and succeeds exactly when there is no symbolic link and the files to be
   exported are within the limits, whatever the order of the visit. Then it lists these files, sorted by path.
   */
  method CollectArchiveFiles(root: seq<Entry>, excluded: set<Bytes>)
    returns (r: Result<(seq<Listed>, nat), Refusal>)
    ensures r.Ok? <==> Clean(root) && WithinLimits(Selected([], root, excluded))
    ensures r == Err(RejectsSymlinks) ==> !Clean(root)
    ensures r == Err(ExceedsLimits) ==> !WithinLimits(Selected([], root, excluded))
    ensures r.Ok? ==>
              && Sorted(r.value.0) && Same(r.value.0, Selected([], root, excluded))
              && r.value.1 == TotalBytes(Selected([], root, excluded))
  {
    ghost var all := Selected([], root, excluded);
    var p := Progress([], 0, [Pending([], root)]);
    RestOfOne(p.stack[0], excluded);
    assert [] + Rest(p.stack, excluded) == all;
    while p.stack != []
      invariant Same(p.files + Rest(p.stack, excluded), all)
      invariant WithinLimits(p.files) && p.bytes == TotalBytes(p.files)
      invariant Clean(root) <==> CleanStack(p.stack)
      decreases Weight(p.stack)
    {
      var top := p.stack[|p.stack| - 1];
      var below := p.stack[..|p.stack| - 1];
      assert p.stack == below + [Pending(top.path, top.entries)];
      Popped(p.files, below, top.path, top.entries, excluded, all);
      var visited := VisitDirectory(top.path, Sort(top.entries), excluded, p.(stack := below), all);
      if visited.Err? {
        match visited.error {
          case RejectsSymlinks => return Err(RejectsSymlinks);
          case ExceedsLimits => return Err(ExceedsLimits);
        }
      }
      p := visited.value;
      assert Everything(p.files, p.stack, top.path, [], excluded) == p.files + Rest(p.stack, excluded);
    }
    assert p.files + [] == p.files;
    Finished(p.files, all);
    r := Ok((Sort(p.files), p.bytes));
  }

  // ----- Paths are distinct -----

  /** Names as a file system has them. */
  predicate Named(entries: seq<Entry>)
    decreases entries, 0
  {
    entries == [] ||
    (var shorter, last := entries[..|entries| - 1], entries[|entries| - 1];
     && Named(shorter) && NamedEntry(last)
     && forall e :: e in shorter ==> e.key != last.key)
  }

  predicate NamedEntry(e: Entry)
    decreases e, 1
  {
    e.key != [] && SLASH !in e.key && (e.value.Directory? ==> Named(e.value.entries))
  }

  /** The path is this one or below it. */
  predicate Under(path: Bytes, prefix: Bytes) {
    path == prefix || prefix + [SLASH] <= path
  }

  lemma NamesAreNotMixed(directory: Bytes, m: Bytes, n: Bytes, path: Bytes)
    requires SLASH !in m && SLASH !in n
    requires Under(path, Join(directory, m)) && Under(path, Join(directory, n))
    ensures m == n
  {
    var at := if directory == [] then 0 else |directory| + 1;
    var tail := path[at..];
    assert Join(directory, m) == (if directory == [] then [] else directory + [SLASH]) + m;
    assert Join(directory, n) == (if directory == [] then [] else directory + [SLASH]) + n;
    assert Under(tail, m) && Under(tail, n);
    assert tail[..|m|] == m && tail[..|n|] == n;
    forall k | 0 <= k < |m| ensures tail[k] != SLASH {
      assert tail[k] == m[k];
    }
    forall k | 0 <= k < |n| ensures tail[k] != SLASH {
      assert tail[k] == n[k];
    }
    assert |tail| > |m| ==> tail[|m|] == SLASH;
    assert |tail| > |n| ==> tail[|n|] == SLASH;
  }

  lemma {:induction false} OneIsUnder(directory: Bytes, e: Entry, excluded: set<Bytes>, f: Listed)
    requires f in One(directory, e, excluded) && NamedEntry(e)
    ensures Under(f.key, Join(directory, e.key))
    decreases e, 1
  {
    if e.value.Directory? {
      var path := Join(directory, e.key);
      var inner := SelectedIsUnder(path, e.value.entries, excluded, f);
      assert path + [SLASH] <= path + [SLASH] + inner.key;
    }
  }

  lemma {:induction false} SelectedIsUnder(directory: Bytes, entries: seq<Entry>, excluded: set<Bytes>, f: Listed)
    returns (e: Entry)
    requires f in Selected(directory, entries, excluded) && Named(entries)
    ensures e in entries && f in One(directory, e, excluded) && Under(f.key, Join(directory, e.key))
    decreases entries, 0
  {
    var shorter, last := entries[..|entries| - 1], entries[|entries| - 1];
    if f in One(directory, last, excluded) {
      e := last;
      OneIsUnder(directory, last, excluded, f);
    } else {
      e := SelectedIsUnder(directory, shorter, excluded, f);
    }
  }

  lemma {:induction false} NamesAreUnique(entries: seq<Entry>, d: Entry, e: Entry)
    requires Named(entries) && d in entries && e in entries && d.key == e.key
    ensures d == e && NamedEntry(d)
  {
    var shorter, last := entries[..|entries| - 1], entries[|entries| - 1];
    if d in shorter && e in shorter {
      NamesAreUnique(shorter, d, e);
    }
  }

  lemma {:induction false} PathsDetermine(
    directory: Bytes, entries: seq<Entry>, excluded: set<Bytes>, f: Listed, g: Listed)
    requires Named(entries) && f.key == g.key
    requires f in Selected(directory, entries, excluded) && g in Selected(directory, entries, excluded)
    ensures f == g
    decreases entries
  {
    var d := SelectedIsUnder(directory, entries, excluded, f);
    var e := SelectedIsUnder(directory, entries, excluded, g);
    NamesAreUnique(entries, d, d);
    NamesAreUnique(entries, e, e);
    NamesAreNotMixed(directory, d.key, e.key, f.key);
    NamesAreUnique(entries, d, e);
    var i :| 0 <= i < |entries| && entries[i] == d;
    if d.value.Directory? {
      assert entries[i].value.entries == d.value.entries;
      PathsDetermine(Join(directory, d.key), entries[i].value.entries, excluded, f, g);
    }
  }

  /** No file is listed twice. */
  lemma {:induction false} ListedOnce(directory: Bytes, entries: seq<Entry>, excluded: set<Bytes>, f: Listed)
    requires Named(entries)
    ensures Tally(Selected(directory, entries, excluded), f) <= 1
    decreases entries, 1
  {
    if entries != [] {
      var shorter, last := entries[..|entries| - 1], entries[|entries| - 1];
      ListedOnce(directory, shorter, excluded, f);
      OneListedOnce(directory, last, excluded, f);
      TallyConcat(Selected(directory, shorter, excluded), One(directory, last, excluded), f);
      TallyOfMember(Selected(directory, shorter, excluded), f);
      TallyOfMember(One(directory, last, excluded), f);
      if f in Selected(directory, shorter, excluded) && f in One(directory, last, excluded) {
        var e := SelectedIsUnder(directory, shorter, excluded, f);
        OneIsUnder(directory, last, excluded, f);
        NamesAreUnique(shorter, e, e);
        NamesAreNotMixed(directory, e.key, last.key, f.key);
        assert false;
      }
    }
  }

  lemma {:induction false} OneListedOnce(directory: Bytes, e: Entry, excluded: set<Bytes>, f: Listed)
    requires NamedEntry(e)
    ensures Tally(One(directory, e, excluded), f) <= 1
    decreases e, 0
  {
    if e.value.Directory? {
      ListedOnce(Join(directory, e.key), e.value.entries, excluded, f);
    } else {
      TallyPlus([], Keyed(Join(directory, e.key), Info(0, "")), f);
    }
  }

  /** On names as a file system has them, the list is the one sorted list of the files to be exported. */
  lemma OnlyOneSortedList(root: seq<Entry>, excluded: set<Bytes>, files: seq<Listed>)
    requires Named(root) && Sorted(files) && Same(files, Selected([], root, excluded))
    ensures files == Sort(Selected([], root, excluded))
  {
    var all := Selected([], root, excluded);
    SortIsSorted(all);
    SortIsSame(all);
    forall f | f in files ensures f in all {
      TallyOfMember(files, f);
      TallyOfMember(all, f);
    }
    forall f, g | f in files && g in files && f.key == g.key ensures f == g {
      PathsDetermine([], root, excluded, f, g);
    }
    assert Same(files, Sort(all)) by {
      forall f ensures Tally(files, f) == Tally(Sort(all), f) {
        assert Tally(Sort(all), f) == Tally(all, f);
      }
    }
    SortedIsUnique(files, Sort(all));
  }
}
