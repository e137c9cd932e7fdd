/** Watching operation files (crates/apollo-mcp-server/src/operations/operation_source.rs): each configured path is read
    again when it changes, and the operations of all paths are sent together. What the files hold and what their
    canonical paths are is an input of each change. */
module OperationSource {
  import opened GraphQL
  import References
  import Sequences

  type Path = string

  datatype Operation = Operation(text: string, source: Option<Path>)

  /** A file with the path it is known by, its extension, and its text if it can be read. */
  datatype Entry = Entry(source: Option<Path>, extension: Option<string>, text: Option<string>)

  /** What a configured path is: a directory, with no entries if it cannot be listed, or one file. */
  datatype Reading = Directory(entries: seq<Entry>) | SingleFile(file: Entry)

  // ---------- Reading one path ----------

  predicate IsBlank(text: string) {
    forall i :: 0 <= i < |text| ==> References.IsSpace(text[i])
  }

  predicate IsDocument(e: Entry) {
    e.extension == Some("graphql")
  }

  /** The operations of one file: none if it is blank; no answer if it cannot be read. */
  function LoadFile(file: Entry): Option<seq<Operation>> {
    if file.text.None? then None
    else Some(if IsBlank(file.text.value) then [] else [Operation(file.text.value, file.source)])
  }

  /** The operations of the documents in a directory; one that cannot be read spoils the reading. */
  function LoadEntries(entries: seq<Entry>): Option<seq<Operation>> {
    if entries == [] then Some([]) else
    var last := entries[|entries| - 1];
    match LoadEntries(entries[..|entries| - 1])
    case None => None
    case Some(before) =>
      if !IsDocument(last) then Some(before) else
      match LoadFile(last)
      case None => None
      case Some(operations) => Some(before + operations)
  }

  function Load(reading: Reading): Option<seq<Operation>> {
    match reading
    case SingleFile(file) => LoadFile(file)
    case Directory(entries) => LoadEntries(entries)
  }

  // ---------- What a path holds, in terms of the texts ----------

  /** The file has this text, not only white space, and is known by the source of the operation. */
  ghost predicate FileHolds(file: Entry, op: Operation) {
    && file.text == Some(op.text) && file.source == op.source
    && exists i :: 0 <= i < |op.text| && !References.IsSpace(op.text[i])
  }

  ghost predicate Holds(reading: Reading, op: Operation) {
    match reading
    case SingleFile(file) => FileHolds(file, op)
    case Directory(entries) => exists e :: e in entries && e.extension == Some("graphql") && FileHolds(e, op)
  }

  /** The file, or a document of the directory, has no text. */
  ghost predicate Unreadable(reading: Reading) {
    match reading
    case SingleFile(file) => file.text.None?
    case Directory(entries) => exists e :: e in entries && e.extension == Some("graphql") && e.text.None?
  }

  lemma FileLoads(file: Entry)
    ensures LoadFile(file).None? <==> file.text.None?
    ensures LoadFile(file).Some? ==>
              |LoadFile(file).value| <= 1 && forall op :: op in LoadFile(file).value <==> FileHolds(file, op)
  {
  }

  lemma {:induction false} DirectoryLoads(entries: seq<Entry>)
    ensures LoadEntries(entries).None? <==> Unreadable(Directory(entries))
    ensures LoadEntries(entries).Some? ==>
              forall op :: op in LoadEntries(entries).value <==> Holds(Directory(entries), op)
  {
    hide LoadFile, FileHolds, Holds;
    if entries == [] {
      NothingHeld();
    } else {
      var before, last := entries[..|entries| - 1], entries[|entries| - 1];
      DirectoryLoads(before);
      FileLoads(last);
      assert entries == before + [last];
      if LoadEntries(entries).Some? {
        forall op
          ensures op in LoadEntries(entries).value <==> Holds(Directory(entries), op)
        {
          HoldsOneMore(before, last, op);
          LoadsOneMore(entries, op);
        }
      }
    }
  }

  lemma LoadsOneMore(entries: seq<Entry>, op: Operation)
    requires entries != [] && LoadEntries(entries).Some?
    ensures var n := |entries| - 1;
            && LoadEntries(entries[..n]).Some? && (IsDocument(entries[n]) ==> LoadFile(entries[n]).Some?)
            && (op in LoadEntries(entries).value <==>
                  || op in LoadEntries(entries[..n]).value
                  || (IsDocument(entries[n]) && op in LoadFile(entries[n]).value))
  {
    hide LoadFile, IsDocument;
  }

  lemma NothingHeld()
    ensures forall op :: !Holds(Directory([]), op)
  {
  }

  lemma HoldsOneMore(entries: seq<Entry>, e: Entry, op: Operation)
    ensures Holds(Directory(entries + [e]), op) <==>
              Holds(Directory(entries), op) || (e.extension == Some("graphql") && FileHolds(e, op))
  {
    hide FileHolds;
    assert forall x :: x in entries + [e] <==> x in entries || x == e;
  }

  /** A path fails to load exactly when a text that it takes cannot be read; otherwise it gives an operation exactly for
      each such text that is not blank. */
  lemma LoadIff(reading: Reading)
    ensures Load(reading).None? <==> Unreadable(reading)
    ensures Load(reading).Some? ==> forall op :: op in Load(reading).value <==> Holds(reading, op)
  {
    hide LoadFile, FileHolds;
    match reading
    case SingleFile(file) => FileLoads(file);
    case Directory(entries) => DirectoryLoads(entries);
  }

  /** A directory gives one operation for each of its documents that is not blank, in the order of the listing. */
  lemma {:induction false} DirectoryInOrder(entries: seq<Entry>) returns (at: seq<nat>)
    requires LoadEntries(entries).Some?
    ensures ListedAt(entries, LoadEntries(entries).value, at)
  {
    hide LoadFile, FileHolds, ListedAt;
    at := [];
    if entries == [] {
      NothingListed();
    } else {
      var n := |entries| - 1;
      at := DirectoryInOrder(entries[..n]);
      FileLoads(entries[n]);
      assert entries == entries[..n] + [entries[n]];
      OneMoreListed(entries[..n], LoadEntries(entries[..n]).value, at, entries[n]);
      var more := if IsDocument(entries[n]) then LoadFile(entries[n]).value else [];
      assert LoadEntries(entries).value == LoadEntries(entries[..n]).value + more;
      if IsDocument(entries[n]) && LoadFile(entries[n]).value != [] {
        at := at + [n];
      }
    }
  }

  /** The operations are those of the entries at these positions, and no other document is other than blank. */
  ghost predicate ListedAt(entries: seq<Entry>, ops: seq<Operation>, at: seq<nat>) {
    && |at| == |ops|
    && (forall i, j :: 0 <= i < j < |at| ==> at[i] < at[j])
    && (forall i :: 0 <= i < |at| ==>
          at[i] < |entries| && entries[at[i]].extension == Some("graphql") && FileHolds(entries[at[i]], ops[i]))
    && forall k, op :: 0 <= k < |entries| && entries[k].extension == Some("graphql") && FileHolds(entries[k], op) ==>
         k in at
  }

  lemma NothingListed()
    ensures ListedAt([], [], [])
  {
  }

  lemma OneMoreListed(entries: seq<Entry>, ops: seq<Operation>, at: seq<nat>, e: Entry)
    requires ListedAt(entries, ops, at) && (IsDocument(e) ==> e.text.Some?)
    ensures var more := if IsDocument(e) then LoadFile(e).value else [];
            && (more == [] ==> ListedAt(entries + [e], ops + more, at))
            && (more != [] ==> ListedAt(entries + [e], ops + more, at + [|entries|]))
  {
    hide FileHolds, LoadFile;
    FileLoads(e);
    assert (at + [|entries|])[|at|] == |entries|;
    assert forall k :: k in at ==> k in at + [|entries|];
    if IsDocument(e) && LoadFile(e).value != [] {
      var op := LoadFile(e).value[0];
      assert op in LoadFile(e).value;
      assert ops + LoadFile(e).value == ops + [op];
    }
  }

  lemma {:induction false} FailsForGood(entries: seq<Entry>, k: nat)
    requires k <= |entries| && LoadEntries(entries[..k]).None?
    ensures LoadEntries(entries).None?
  {
    if k < |entries| {
      var before := entries[..|entries| - 1];
      assert before[..k] == entries[..k];
      FailsForGood(before, k);
    } else {
      assert entries[..k] == entries;
    }
  }

  method Read(reading: Reading) returns (operations: Option<seq<Operation>>)
    ensures operations == Load(reading)
    ensures operations.None? <==> Unreadable(reading)
    ensures operations.Some? ==> forall op :: op in operations.value <==> Holds(reading, op)
  {
    hide IsBlank, IsDocument, Unreadable, Holds;
    LoadIff(reading);
    if reading.SingleFile? {
      return LoadFile(reading.file);
    }
    var entries := reading.entries;
    var found: seq<Operation> := [];
    for k := 0 to |entries|
      invariant LoadEntries(entries[..k]) == Some(found)
    {
      var e := entries[k];
      assert entries[..k + 1][..k] == entries[..k];
      if IsDocument(e) {
        var operations := LoadFile(e);
        if operations.None? {
          FailsForGood(entries, k + 1);
          return None;
        }
        found := found + operations.value;
      }
    }
    assert entries[..|entries|] == entries;
    operations := Some(found);
  }

  // ---------- Merging ----------

  /** Where an operation comes from: its canonical path, or the path as it is if that cannot be found out. */
  function Origin(op: Operation, canonical: map<Path, Path>): Option<Path> {
    match op.source
    case None => None
    case Some(path) => Some(if path in canonical then canonical[path] else path)
  }

  function Origins(ops: seq<Operation>, canonical: map<Path, Path>): set<Path> {
    set op | op in ops && op.source.Some? :: Origin(op, canonical).value
  }

  /** The operations that are the first of their origin, or have none. */
  function Merge(ops: seq<Operation>, canonical: map<Path, Path>): seq<Operation> {
    if ops == [] then [] else
    var before, last := ops[..|ops| - 1], ops[|ops| - 1];
    var origin := Origin(last, canonical);
    Merge(before, canonical) + if origin.None? || origin.value !in Origins(before, canonical) then [last] else []
  }

  function Sourceless(ops: seq<Operation>): seq<Operation> {
    if ops == [] then [] else
    Sourceless(ops[..|ops| - 1]) + if ops[|ops| - 1].source.None? then [ops[|ops| - 1]] else []
  }

  ghost predicate OriginsDiffer(ops: seq<Operation>, canonical: map<Path, Path>) {
    forall i, j :: 0 <= i < j < |ops| && ops[i].source.Some? ==> Origin(ops[i], canonical) != Origin(ops[j], canonical)
  }

  /** `merged` holds, of all the operations `ops`, exactly one of each origin and every one without a source. */
  ghost predicate OneOfEach(merged: seq<Operation>, ops: seq<Operation>, canonical: map<Path, Path>) {
    && (forall op :: op in merged ==> op in ops)
    && OriginsDiffer(merged, canonical)
    && Origins(merged, canonical) == Origins(ops, canonical)
    && Sourceless(merged) == Sourceless(ops)
  }

  lemma AppendParts(ops: seq<Operation>, op: Operation, canonical: map<Path, Path>)
    ensures Origins(ops + [op], canonical)
         == Origins(ops, canonical) + if op.source.Some? then {Origin(op, canonical).value} else {}
    ensures Sourceless(ops + [op]) == if op.source.None? then Sourceless(ops) + [op] else Sourceless(ops)
  {
    hide Origin;
    assert (ops + [op])[..|ops|] == ops;
    assert forall o :: o in ops + [op] <==> o in ops || o == op;
    if op.source.Some? {
      assert op in ops + [op];
    }
  }

  lemma OriginsDifferAppend(ops: seq<Operation>, op: Operation, canonical: map<Path, Path>)
    requires OriginsDiffer(ops, canonical)
    requires op.source.Some? ==> Origin(op, canonical).value !in Origins(ops, canonical)
    ensures OriginsDiffer(ops + [op], canonical)
  {
    forall i | 0 <= i < |ops| && ops[i].source.Some?
      ensures Origin(ops[i], canonical) != Origin(op, canonical)
    {
      assert Origin(ops[i], canonical).value in Origins(ops, canonical);
    }
  }

  lemma {:induction false} MergeKeepsOneOfEach(ops: seq<Operation>, canonical: map<Path, Path>)
    ensures OneOfEach(Merge(ops, canonical), ops, canonical)
  {
    hide Origins, Sourceless, OriginsDiffer, Origin;
    if ops != [] {
      var before, last := ops[..|ops| - 1], ops[|ops| - 1];
      assert ops == before + [last];
      MergeKeepsOneOfEach(before, canonical);
      AppendParts(before, last, canonical);
      AppendParts(Merge(before, canonical), last, canonical);
      HasOrigin(last, canonical);
      if Origin(last, canonical).None? || Origin(last, canonical).value !in Origins(before, canonical) {
        OriginsDifferAppend(Merge(before, canonical), last, canonical);
      } else {
        assert Merge(before, canonical) + [] == Merge(before, canonical);
        assert Origins(before, canonical) + {Origin(last, canonical).value} == Origins(before, canonical);
      }
    } else {
      NoParts(canonical);
    }
  }

  lemma HasOrigin(op: Operation, canonical: map<Path, Path>)
    ensures Origin(op, canonical).Some? <==> op.source.Some?
  {
  }

  lemma HaveOrigins(ops: seq<Operation>, canonical: map<Path, Path>)
    ensures forall op :: op in ops ==> (Origin(op, canonical).Some? <==> op.source.Some?)
  {
  }

  lemma NoParts(canonical: map<Path, Path>)
    ensures Merge([], canonical) == [] && OriginsDiffer([], canonical)
  {
  }

  /** The operations of all paths, in the order in which the map of paths is run through. */
  function Together(order: seq<Path>, loads: map<Path, seq<Operation>>): seq<Operation>
    requires forall p :: p in order ==> p in loads
  {
    if order == [] then [] else loads[order[0]] + Together(order[1..], loads)
  }

  lemma {:induction false} TogetherHolds(order: seq<Path>, loads: map<Path, seq<Operation>>, op: Operation)
    requires forall p :: p in order ==> p in loads
    ensures op in Together(order, loads) <==> exists p :: p in order && op in loads[p]
  {
    if order != [] {
      TogetherHolds(order[1..], loads, op);
      assert forall p :: p in order <==> p == order[0] || p in order[1..];
    }
  }

  // ---------- Watching ----------

  /** One change: the path, what is read there, and, for the merging, the canonical paths and the order in which the
      map of paths is run through. */
  datatype Change = Change(path: Path, reading: Reading, canonical: map<Path, Path>, order: seq<Path>)

  datatype Event = OperationsUpdated(operations: seq<Operation>) | OperationError(path: Path)

  ghost predicate Runs(order: seq<Path>, keys: set<Path>) {
    Sequences.Distinct(order) && forall p :: p in order <==> p in keys
  }

  function Keys(paths: seq<Path>): set<Path> {
    set p | p in paths
  }

  /** The latest successful load of each path. */
  function Loads(changes: seq<Change>): map<Path, seq<Operation>> {
    if changes == [] then map[] else
    var change, before := changes[|changes| - 1], Loads(changes[..|changes| - 1]);
    match Load(change.reading)
    case None => before
    case Some(operations) => before[change.path := operations]
  }

  lemma {:induction false} LoadedWereChanged(changes: seq<Change>, paths: seq<Path>)
    requires forall i :: 0 <= i < |changes| ==> changes[i].path in paths
    ensures Loads(changes).Keys <= Keys(paths)
  {
    if changes != [] {
      LoadedWereChanged(changes[..|changes| - 1], paths);
    }
  }

  /** The changes come from the configured paths, and run through the map as it is then. */
  ghost predicate Watched(paths: seq<Path>, changes: seq<Change>) {
    forall i :: 0 <= i < |changes| ==> changes[i].path in paths && Runs(changes[i].order, Loads(changes[..i + 1]).Keys)
  }

  /** What is sent for the last change: an error for a reading that failed; otherwise the operations of all paths, once
      every configured path has been loaded. */
  ghost predicate Sent(paths: seq<Path>, changes: seq<Change>, event: Option<Event>)
    requires changes != []
  {
    var change, loads := changes[|changes| - 1], Loads(changes);
    match event
    case Some(OperationError(path)) => path == change.path && Load(change.reading).None?
    case Some(OperationsUpdated(operations)) =>
      && Load(change.reading).Some? && Sequences.Distinct(paths) && loads.Keys == Keys(paths)
      && (forall p :: p in change.order <==> p in loads)
      && OneOfEach(operations, Together(change.order, loads), change.canonical)
    case None => Load(change.reading).Some? && !(Sequences.Distinct(paths) && loads.Keys == Keys(paths))
  }

  lemma DistinctAppend(paths: seq<Path>, last: Path)
    ensures Sequences.Distinct(paths + [last]) <==> Sequences.Distinct(paths) && last !in paths
  {
    var all := paths + [last];
    assert forall i :: 0 <= i < |paths| ==> all[i] == paths[i];
    assert all[|paths|] == last;
    if last in paths {
      var i :| 0 <= i < |paths| && paths[i] == last;
      assert all[i] == all[|paths|];
    }
  }

  lemma {:induction false} KeysCount(paths: seq<Path>)
    ensures |Keys(paths)| <= |paths|
    ensures |Keys(paths)| == |paths| <==> Sequences.Distinct(paths)
  {
    hide Sequences.Distinct;
    if paths == [] {
      NoKeys();
    } else {
      var front, last := paths[..|paths| - 1], paths[|paths| - 1];
      assert paths == front + [last];
      KeysCount(front);
      DistinctAppend(front, last);
      assert Keys(paths) == Keys(front) + {last};
    }
  }

  lemma NoKeys()
    ensures Keys([]) == {} && Sequences.Distinct<Path>([])
  {
  }

  lemma SubsetSize<T>(a: set<T>, b: set<T>)
    requires a <= b
    ensures |a| <= |b| && (|a| == |b| <==> a == b)
  {
    assert b == a + (b - a);
    assert |b - a| == 0 ==> b - a == {};
  }

  /** As many paths are loaded as are configured exactly when all are, and none is configured twice. */
  lemma CountTells(paths: seq<Path>, loaded: set<Path>)
    requires loaded <= Keys(paths)
    ensures |loaded| == |paths| <==> Sequences.Distinct(paths) && loaded == Keys(paths)
  {
    KeysCount(paths);
    SubsetSize(loaded, Keys(paths));
  }

  class Watcher {
    const paths: seq<Path>
    var state: map<Path, seq<Operation>>

    constructor (paths: seq<Path>)
      ensures this.paths == paths && state == map[]
    {
      this.paths, state := paths, map[];
    }

    /** One change of a path. */
    method Changed(change: Change, ghost before: seq<Change>) returns (event: Option<Event>)
      requires state == Loads(before) && Watched(paths, before + [change])
      modifies this`state
      ensures state == Loads(before + [change])
      ensures Sent(paths, before + [change], event)
    {
      hide OneOfEach, Load, Runs;
      ghost var changes := before + [change];
      assert changes[..|before|] == before && changes[..|before| + 1] == changes;
      var operations := Read(change.reading);
      if operations.None? {
        return Some(OperationError(change.path));
      }
      state := state[change.path := operations.value];
      LoadedWereChanged(changes, paths);
      CountTells(paths, state.Keys);
      if |state| == |paths| {
        assert |state.Keys| == |state|;
        RunsThrough(change.order, state.Keys);
        MergeKeepsOneOfEach(Together(change.order, state), change.canonical);
        var merged := MergeLoop(Together(change.order, state), change.canonical);
        return Some(OperationsUpdated(merged));
      }
      assert |state.Keys| == |state|;
      return None;
    }
  }

  lemma RunsThrough(order: seq<Path>, keys: set<Path>)
    requires Runs(order, keys)
    ensures forall p :: p in order <==> p in keys
  {
  }

  method MergeLoop(ops: seq<Operation>, canonical: map<Path, Path>) returns (merged: seq<Operation>)
    ensures merged == Merge(ops, canonical)
  {
    hide Origin, Origins, Sourceless;
    merged := [];
    var seen: set<Path> := {};
    NoOrigins(canonical);
    for k := 0 to |ops|
      invariant merged == Merge(ops[..k], canonical) && seen == Origins(ops[..k], canonical)
    {
      var origin := Origin(ops[k], canonical);
      HasOrigin(ops[k], canonical);
      assert ops[..k + 1] == ops[..k] + [ops[k]];
      AppendParts(ops[..k], ops[k], canonical);
      if origin.None? {
        merged := merged + [ops[k]];
      } else {
        if origin.value !in seen {
          merged := merged + [ops[k]];
        }
        seen := seen + {origin.value};
      }
    }
    assert ops[..|ops|] == ops;
  }

  lemma NoOrigins(canonical: map<Path, Path>)
    ensures Origins([], canonical) == {}
  {
  }

  /** A whole run: what is sent for each change. */
  method Watch(paths: seq<Path>, changes: seq<Change>) returns (events: seq<Option<Event>>)
    requires Watched(paths, changes)
    ensures |events| == |changes|
    ensures forall i :: 0 <= i < |changes| ==> Sent(paths, changes[..i + 1], events[i])
    ensures forall i :: 0 <= i < |changes| ==> Reports(paths, changes[..i + 1], events[i])
    ensures !Sequences.Distinct(paths) ==>
              forall i :: 0 <= i < |changes| && events[i].Some? ==> events[i].value.OperationError?
  {
    hide Sent, Loads, Runs, Reports;
    var watcher := new Watcher(paths);
    events := [];
    NothingLoaded();
    for k := 0 to |changes|
      invariant |events| == k && watcher.paths == paths && watcher.state == Loads(changes[..k])
      invariant forall i :: 0 <= i < k ==> Sent(paths, changes[..i + 1], events[i])
      invariant forall i :: 0 <= i < k ==> Reports(paths, changes[..i + 1], events[i])
      invariant forall i :: 0 <= i < k && events[i].Some? && events[i].value.OperationsUpdated? ==>
                  Sequences.Distinct(paths)
    {
      assert changes[..k + 1] == changes[..k] + [changes[k]];
      WatchedPrefix(paths, changes, k + 1);
      var event := watcher.Changed(changes[k], changes[..k]);
      UpdatesAreComplete(paths, changes[..k + 1], event);
      LoadedWereChanged(changes[..k + 1], paths);
      SentReports(paths, changes[..k + 1], event);
      events := events + [event];
    }
  }

  /** An update is sent only with every path loaded, and no path configured twice. */
  lemma UpdatesAreComplete(paths: seq<Path>, changes: seq<Change>, event: Option<Event>)
    requires changes != [] && Sent(paths, changes, event)
    ensures event.Some? && event.value.OperationsUpdated? ==>
              Sequences.Distinct(paths) && forall p :: p in paths ==> p in Loads(changes)
  {
    hide Loads, Load, OneOfEach;
    assert forall p :: p in paths ==> p in Keys(paths);
  }

  lemma NothingLoaded()
    ensures Loads([]) == map[]
  {
  }

  lemma WatchedPrefix(paths: seq<Path>, changes: seq<Change>, k: nat)
    requires Watched(paths, changes) && k <= |changes|
    ensures Watched(paths, changes[..k])
  {
    hide Loads, Runs;
    forall i | 0 <= i < k
      ensures changes[..k][i].path in paths && Runs(changes[..k][i].order, Loads(changes[..k][..i + 1]).Keys)
    {
      assert changes[..k][..i + 1] == changes[..i + 1];
    }
  }

  /** The latest successful load of a path stays until the next one: failed readings and other paths do not touch it. */
  lemma {:induction false} LoadStays(changes: seq<Change>, i: nat, j: nat)
    requires i < j <= |changes| && Load(changes[i].reading).Some?
    requires forall k :: i < k < j && changes[k].path == changes[i].path ==> Load(changes[k].reading).None?
    ensures changes[i].path in Loads(changes[..j])
    ensures Loads(changes[..j])[changes[i].path] == Load(changes[i].reading).value
  {
    hide Load;
    assert changes[..j][..j - 1] == changes[..j - 1];
    if i < j - 1 {
      LoadStays(changes, i, j - 1);
    }
  }

  // ---------- A run, in terms of what is read ----------

  /** The last reading of its path that did not fail. */
  ghost predicate LatestReading(changes: seq<Change>, i: nat) {
    && i < |changes| && !Unreadable(changes[i].reading)
    && forall k :: i < k < |changes| && changes[k].path == changes[i].path ==> Unreadable(changes[k].reading)
  }

  /** One of these paths has been read. */
  ghost predicate WasRead(changes: seq<Change>, p: Path) {
    exists i :: 0 <= i < |changes| && changes[i].path == p && !Unreadable(changes[i].reading)
  }

  /** The operation is in the last reading of some path. */
  ghost predicate Current(changes: seq<Change>, op: Operation) {
    exists i: nat :: LatestReading(changes, i) && Holds(changes[i].reading, op)
  }

  lemma LatestIsLoaded(changes: seq<Change>, i: nat)
    requires LatestReading(changes, i)
    ensures changes[i].path in Loads(changes)
    ensures Load(changes[i].reading) == Some(Loads(changes)[changes[i].path])
  {
    hide Load, Unreadable, Holds, Loads;
    forall k | 0 <= k < |changes|
      ensures Load(changes[k].reading).None? <==> Unreadable(changes[k].reading)
    {
      LoadIff(changes[k].reading);
    }
    LoadStays(changes, i, |changes|);
    assert changes[..|changes|] == changes;
  }

  lemma {:induction false} LoadedIsLatest(changes: seq<Change>, p: Path) returns (i: nat)
    requires p in Loads(changes)
    ensures LatestReading(changes, i) && changes[i].path == p
  {
    hide Load, Unreadable, Holds;
    var n := |changes| - 1;
    LoadIff(changes[n].reading);
    if changes[n].path == p && Load(changes[n].reading).Some? {
      i := n;
    } else {
      i := LoadedIsLatest(changes[..n], p);
    }
  }

  /** What is loaded of the paths is what their last readings hold. */
  lemma LoadsAreCurrent(changes: seq<Change>)
    ensures forall p :: p in Loads(changes) <==> WasRead(changes, p)
    ensures forall op :: (exists p :: p in Loads(changes) && op in Loads(changes)[p]) <==> Current(changes, op)
  {
    hide Load, Unreadable, Holds, Loads;
    forall p
      ensures p in Loads(changes) <==> WasRead(changes, p)
    {
      LoadedIffRead(changes, p);
    }
    forall op
      ensures (exists p :: p in Loads(changes) && op in Loads(changes)[p]) <==> Current(changes, op)
    {
      if p :| p in Loads(changes) && op in Loads(changes)[p] {
        var i := LoadedIsLatest(changes, p);
        LatestIsLoaded(changes, i);
        LatestIsThere(changes, i);
        LoadIff(changes[i].reading);
      }
      if Current(changes, op) {
        var i: nat :| LatestReading(changes, i) && Holds(changes[i].reading, op);
        LatestIsLoaded(changes, i);
        LatestIsThere(changes, i);
        LoadIff(changes[i].reading);
      }
    }
  }

  lemma LatestIsThere(changes: seq<Change>, i: nat)
    requires LatestReading(changes, i)
    ensures i < |changes|
  {
  }

  lemma {:induction false} LoadedIffRead(changes: seq<Change>, p: Path)
    ensures p in Loads(changes) <==> WasRead(changes, p)
  {
    hide Load, Unreadable, Holds;
    if changes != [] {
      var n := |changes| - 1;
      LoadedIffRead(changes[..n], p);
      LoadIff(changes[n].reading);
      assert forall i :: 0 <= i < n ==> changes[..n][i] == changes[i];
    }
  }

  /** What is reported after the last change: an error for the path that could not be read; nothing while some
      configured path has not been read, or one is configured twice; and otherwise the operations of the last
      readings. */
  ghost predicate Reports(paths: seq<Path>, changes: seq<Change>, event: Option<Event>)
    requires changes != []
  {
    var last := changes[|changes| - 1];
    if Unreadable(last.reading) then event == Some(OperationError(last.path))
    else if Sequences.Distinct(paths) && forall p :: p in paths ==> WasRead(changes, p)
    then event.Some? && event.value.OperationsUpdated? && UpdateOf(changes, last.canonical, event.value.operations)
    else event.None?
  }

  /** Every operation sent is current; of the current ones, all without a source are sent, and of those with one,
      exactly one of each file. */
  ghost predicate UpdateOf(changes: seq<Change>, canonical: map<Path, Path>, operations: seq<Operation>) {
    && (forall op :: op in operations ==> Current(changes, op))
    && (forall op :: Current(changes, op) && op.source.None? ==> op in operations)
    && forall op :: Current(changes, op) && op.source.Some? ==> OneOfFile(operations, canonical, op.source.value)
  }

  ghost predicate OneOfFile(operations: seq<Operation>, canonical: map<Path, Path>, source: Path) {
    exists i: nat :: OnlyAt(operations, canonical, source, i)
  }

  ghost predicate OnlyAt(operations: seq<Operation>, canonical: map<Path, Path>, source: Path, i: nat) {
    && i < |operations|
    && forall j :: 0 <= j < |operations| ==>
         (j == i <==> operations[j].source.Some? && SameFile(canonical, operations[j].source.value, source))
  }

  /** Two paths of one file: they have the same canonical path, or the one that has none is that of the other. */
  ghost predicate SameFile(canonical: map<Path, Path>, a: Path, b: Path) {
    if a in canonical then
      if b in canonical then canonical[a] == canonical[b] else canonical[a] == b
    else
      if b in canonical then a == canonical[b] else a == b
  }

  lemma SameIffSameOrigin(canonical: map<Path, Path>, a: Operation, b: Operation)
    requires a.source.Some? && b.source.Some?
    ensures Origin(a, canonical) == Origin(b, canonical) <==> SameFile(canonical, a.source.value, b.source.value)
  {
  }

  /** Of every current operation with a source, an update holds one of the same file, and no other. */
  lemma {:induction false} UpdateHoldsEachOnce(
    paths: seq<Path>, changes: seq<Change>, operations: seq<Operation>, op: Operation)
    requires changes != [] && Sent(paths, changes, Some(OperationsUpdated(operations)))
    requires Current(changes, op) && op.source.Some?
    ensures OneOfFile(operations, changes[|changes| - 1].canonical, op.source.value)
  {
    hide Loads, Load, Origin, SameFile, Current;
    var change := changes[|changes| - 1];
    LoadsAreCurrent(changes);
    TogetherHolds(change.order, Loads(changes), op);
    HasOrigin(op, change.canonical);
    HaveOrigins(operations, change.canonical);
    assert Origin(op, change.canonical).value in Origins(operations, change.canonical);
    var m :| m in operations && m.source.Some?
             && Origin(m, change.canonical).value == Origin(op, change.canonical).value;
    var i :| 0 <= i < |operations| && operations[i] == m;
    OnlyOne(operations, change.canonical, i);
    forall j | 0 <= j < |operations| && operations[j].source.Some?
      ensures Origin(operations[j], change.canonical) == Origin(op, change.canonical)
         <==> SameFile(change.canonical, operations[j].source.value, op.source.value)
    {
      SameIffSameOrigin(change.canonical, operations[j], op);
    }
    assert OnlyAt(operations, change.canonical, op.source.value, i);
  }

  lemma OnlyOne(ops: seq<Operation>, canonical: map<Path, Path>, i: nat)
    requires OriginsDiffer(ops, canonical) && i < |ops| && ops[i].source.Some?
    ensures forall j :: 0 <= j < |ops| && j != i ==> Origin(ops[j], canonical) != Origin(ops[i], canonical)
  {
    forall j | 0 <= j < |ops| && j != i
      ensures Origin(ops[j], canonical) != Origin(ops[i], canonical)
    {
      if ops[j].source.Some? && j < i {
        assert Origin(ops[j], canonical) != Origin(ops[i], canonical);
      }
    }
  }

  /** And every current one without a source. */
  lemma {:induction false} UpdateHoldsSourceless(
    paths: seq<Path>, changes: seq<Change>, operations: seq<Operation>, op: Operation)
    requires changes != [] && Sent(paths, changes, Some(OperationsUpdated(operations)))
    requires Current(changes, op) && op.source.None?
    ensures op in operations
  {
    hide Loads, Load, Origin, Current, Sourceless;
    var change := changes[|changes| - 1];
    LoadsAreCurrent(changes);
    TogetherHolds(change.order, Loads(changes), op);
    SourcelessHold(Together(change.order, Loads(changes)), op);
    SourcelessHold(operations, op);
  }

  lemma {:induction false} SourcelessHold(ops: seq<Operation>, op: Operation)
    ensures op in Sourceless(ops) <==> op in ops && op.source.None?
  {
    if ops != [] {
      SourcelessHold(ops[..|ops| - 1], op);
      assert ops == ops[..|ops| - 1] + [ops[|ops| - 1]];
    }
  }

  /** And everything in it is current. */
  lemma {:induction false} UpdateIsLoaded(
    paths: seq<Path>, changes: seq<Change>, operations: seq<Operation>, op: Operation)
    requires changes != [] && Sent(paths, changes, Some(OperationsUpdated(operations))) && op in operations
    ensures Current(changes, op)
  {
    hide Loads, Load, Origin, Current;
    LoadsAreCurrent(changes);
    TogetherHolds(changes[|changes| - 1].order, Loads(changes), op);
  }

  /** What is sent, in terms of what is read. */
  lemma {:induction false} SentReports(paths: seq<Path>, changes: seq<Change>, event: Option<Event>)
    requires changes != [] && Sent(paths, changes, event) && Loads(changes).Keys <= Keys(paths)
    ensures Reports(paths, changes, event)
  {
    hide Loads, Load, Origin, Current, Unreadable, Holds, OneOfFile, OneOfEach, WasRead;
    var last := changes[|changes| - 1];
    LoadIff(last.reading);
    LoadsAreCurrent(changes);
    assert forall p :: p in paths <==> p in Keys(paths);
    assert Loads(changes).Keys == Keys(paths) <==> forall p :: p in paths ==> WasRead(changes, p);
    if event.Some? && event.value.OperationsUpdated? {
      UpdateIs(paths, changes, event.value.operations);
    }
  }

  lemma {:induction false} UpdateIs(paths: seq<Path>, changes: seq<Change>, operations: seq<Operation>)
    requires changes != [] && Sent(paths, changes, Some(OperationsUpdated(operations)))
    ensures UpdateOf(changes, changes[|changes| - 1].canonical, operations)
  {
    hide Sent, Current, OneOfFile;
    forall op | op in operations
      ensures Current(changes, op)
    {
      UpdateIsLoaded(paths, changes, operations, op);
    }
    forall op | Current(changes, op)
      ensures op.source.None? ==> op in operations
      ensures op.source.Some? ==> OneOfFile(operations, changes[|changes| - 1].canonical, op.source.value)
    {
      if op.source.None? {
        UpdateHoldsSourceless(paths, changes, operations, op);
      } else {
        UpdateHoldsEachOnce(paths, changes, operations, op);
      }
    }
  }
}
