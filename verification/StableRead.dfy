/** Reading a file in pieces while others may write, relink or touch it
    (`_read_stable_restricted_file`, `_strict_file_bytes`), as interleaved steps. */
module StableRead {
  import opened Sequences
  import opened Utf8

  const FILE_READ_SIZE := 1024 * 1024

  /** `rest` stands for every other field that the identity compares. */
  datatype Inode = Inode(content: Bytes, ctime: nat, links: nat, rest: nat)

  /** The file system the reader looks at: inodes, what the path names, and the parent's identity. */
  datatype World = World(inodes: map<nat, Inode>, path: Option<nat>, parent: nat)

  datatype Stat = Stat(ino: nat, size: nat, ctime: nat, links: nat, rest: nat)

  /** The reader after each system call. `from` and `to` are the instants of the first and last look at the path. */
  datatype Reader =
    | Idle
    | Seen(from: nat, path: Stat, parent: nat)
    | Opened(from: nat, path: Stat, parent: nat, fd: nat)
    | Reading(from: nat, path: Stat, parent: nat, first: Stat, data: Bytes)
    | Ended(from: nat, path: Stat, parent: nat, first: Stat, data: Bytes)
    | Closed(from: nat, path: Stat, parent: nat, first: Stat, after: Stat, data: Bytes)
    | Rechecked(from: nat, path: Stat, parent: nat, first: Stat, after: Stat, pathAfter: Stat, to: nat, data: Bytes)
    | Returned(from: nat, to: nat, ino: nat, data: Bytes)
    | Failed

  /** `clock` counts steps, so a state knows which instant it is. */
  datatype State = State(world: World, reader: Reader, clock: nat)

  function StatOf(w: World, ino: nat): Stat
    requires ino in w.inodes
  {
    var n := w.inodes[ino];
    Stat(ino, |n.content|, n.ctime, n.links, n.rest)
  }

  predicate Holds(w: World, ino: nat, content: Bytes) { ino in w.inodes && w.inodes[ino].content == content }

  predicate PathNames(w: World, ino: nat) { w.path == Some(ino) && ino in w.inodes }

  /** What a reader demands: a byte limit, and checks of the metadata (links, size, owner, modes) before and
      after opening; `Stat.rest` and the parent's identity carry owner and modes. */
  datatype Terms = Terms(limit: Option<nat>, pathOk: (Stat, nat) -> bool, openOk: (Stat, nat) -> bool)

  predicate Fits(terms: Terms, n: nat) { terms.limit.Some? ==> n <= terms.limit.value }

  /** `_read_stable_restricted_file`: one link, a fixed limit, and owner and modes as `plain` says. */
  function Restricted(limit: nat, plain: (nat, nat) -> bool): Terms {
    Terms(Some(limit), (path: Stat, parent: nat) => path.links == 1 && path.size <= limit && plain(path.rest, parent),
          (first: Stat, parent: nat) => first.links == 1)
  }

  /** `_strict_file_bytes`: the link count, the limit, and owner and modes are optional, and checked once opened. */
  function Strict(limit: Option<nat>, singleLink: bool, plain: (nat, nat) -> bool): Terms {
    Terms(limit, (path: Stat, parent: nat) => singleLink ==> path.links == 1,
          (first: Stat, parent: nat) =>
            (singleLink ==> first.links == 1) && (limit.Some? ==> first.size <= limit.value) && plain(first.rest, parent))
  }

  // ---- Steps ----

  /** What others may do in one step: create files, relink the path, and change inodes. Where `strict`,
      a change of content advances the inode's ctime, as a POSIX file system with a fine clock does. */
  ghost predicate Interferes(w: World, v: World, strict: bool) {
    forall i :: i in w.inodes ==>
      && i in v.inodes && v.inodes[i].ctime >= w.inodes[i].ctime
      && (strict && v.inodes[i].content != w.inodes[i].content ==> v.inodes[i].ctime > w.inodes[i].ctime)
  }

  /** The reader's next system call, with the checks that follow it. `n` is how many bytes a read returns. */
  ghost predicate Reads(w: World, r: Reader, r': Reader, clock: nat, terms: Terms, n: nat) {
    match r
    case Idle =>
      if w.path.Some? && w.path.value in w.inodes then
        var path := StatOf(w, w.path.value);
        r' == if terms.pathOk(path, w.parent) then Seen(clock, path, w.parent) else Failed
      else r' == Failed
    case Seen(from, path, parent) =>
      r' == if w.path.Some? && w.path.value in w.inodes then Opened(from, path, parent, w.path.value) else Failed
    case Opened(from, path, parent, fd) =>
      if fd in w.inodes then
        var first := StatOf(w, fd);
        r' == if first.ino == path.ino && terms.openOk(first, parent) then Reading(from, path, parent, first, []) else Failed
      else r' == Failed
    case Reading(from, path, parent, first, data) =>
      if first.ino !in w.inodes then r' == Failed
      else
        var content := w.inodes[first.ino].content;
        var count := if terms.limit.Some? then Minimum(FILE_READ_SIZE, terms.limit.value + 1 - |data|) else FILE_READ_SIZE;
        if |data| >= |content| then r' == Ended(from, path, parent, first, data)
        else
          && 1 <= n <= Minimum(count, |content| - |data|)
          && r' == if Fits(terms, |data| + n) then Reading(from, path, parent, first, data + content[|data|..|data| + n])
                   else Failed
    case Ended(from, path, parent, first, data) =>
      r' == if first.ino in w.inodes then Closed(from, path, parent, first, StatOf(w, first.ino), data) else Failed
    case Closed(from, path, parent, first, after, data) =>
      r' == if w.path.Some? && w.path.value in w.inodes
            then Rechecked(from, path, parent, first, after, StatOf(w, w.path.value), clock, data) else Failed
    case Rechecked(from, path, parent, first, after, pathAfter, to, data) =>
      r' == if path == pathAfter && first == after && parent == w.parent && pathAfter.ino == after.ino && |data| == first.size
            then Returned(from, to, first.ino, data) else Failed
    case Returned(_, _, _, _) => r' == r
    case Failed => r' == r
  }

  ghost predicate Next(s: State, t: State, terms: Terms, strict: bool) {
    && t.clock == s.clock + 1
    && ((t.reader == s.reader && Interferes(s.world, t.world, strict))
        || (t.world == s.world && exists n: nat :: Reads(s.world, s.reader, t.reader, s.clock, terms, n)))
  }

  ghost predicate Run(states: seq<State>, terms: Terms, strict: bool) {
    && states != [] && states[0].reader == Idle && states[0].clock == 0
    && forall i :: 0 < i < |states| ==> Next(states[i - 1], states[i], terms, strict)
  }

  // ---- Time only moves an inode forward ----

  lemma StepForward(states: seq<State>, terms: Terms, i: nat, ino: nat)
    requires Run(states, terms, true) && 0 < i < |states| && ino in states[i - 1].world.inodes
    ensures ino in states[i].world.inodes
    ensures states[i].world.inodes[ino].ctime >= states[i - 1].world.inodes[ino].ctime
    ensures states[i].world.inodes[ino].ctime == states[i - 1].world.inodes[ino].ctime ==>
              states[i].world.inodes[ino].content == states[i - 1].world.inodes[ino].content
  {
    hide Reads;
    assert Next(states[i - 1], states[i], terms, true);
  }

  /** Between two instants with the same ctime, the content never changed. */
  lemma {:induction false} Forward(states: seq<State>, terms: Terms, a: nat, b: nat, ino: nat)
    requires Run(states, terms, true) && a <= b < |states| && ino in states[a].world.inodes
    ensures ino in states[b].world.inodes
    ensures states[b].world.inodes[ino].ctime >= states[a].world.inodes[ino].ctime
    ensures states[b].world.inodes[ino].ctime == states[a].world.inodes[ino].ctime ==>
              forall j :: a <= j <= b ==> Holds(states[j].world, ino, states[a].world.inodes[ino].content)
    decreases b - a
  {
    hide Run;
    if a < b {
      Forward(states, terms, a, b - 1, ino);
      StepForward(states, terms, b, ino);
    }
  }

  lemma {:induction false} ClockIsIndex(states: seq<State>, terms: Terms, strict: bool, i: nat)
    requires Run(states, terms, strict) && i < |states|
    ensures states[i].clock == i
  {
    hide Interferes, Reads;
    if i > 0 {
      ClockIsIndex(states, terms, strict, i - 1);
      assert Next(states[i - 1], states[i], terms, strict);
    }
  }

  // ---- What the reader knows ----

  /** The first look at the path happened at instant `from`. */
  predicate SeenAt(states: seq<State>, from: nat, path: Stat) {
    && from < |states| && PathNames(states[from].world, path.ino)
    && path == StatOf(states[from].world, path.ino)
  }

  /** As long as the inode keeps the ctime it had at `from`, the reader holds a front of that content. */
  predicate FrontOf(states: seq<State>, from: nat, path: Stat, first: Stat, data: Bytes, now: World) {
    && SeenAt(states, from, path) && first.ino == path.ino && path.ino in now.inodes
    && path.ctime <= first.ctime <= now.inodes[path.ino].ctime
    && (now.inodes[path.ino].ctime == path.ctime ==>
          var content := states[from].world.inodes[path.ino].content;
          first.size == |content| && |data| <= |content| && data == content[..|data|])
  }

  predicate Knows(states: seq<State>, i: nat, terms: Terms)
    requires i < |states|
  {
    var w := states[i].world;
    match states[i].reader
    case Idle => true
    case Seen(from, path, parent) => from <= i && SeenAt(states, from, path)
    case Opened(from, path, parent, fd) => from <= i && SeenAt(states, from, path)
    case Reading(from, path, parent, first, data) => from <= i && Fits(terms, |data|) && FrontOf(states, from, path, first, data, w)
    case Ended(from, path, parent, first, data) =>
      && from <= i && Fits(terms, |data|) && FrontOf(states, from, path, first, data, w)
      && (w.inodes[path.ino].ctime == path.ctime ==> data == states[from].world.inodes[path.ino].content)
    case Closed(from, path, parent, first, after, data) =>
      && from <= i && Fits(terms, |data|) && FrontOf(states, from, path, first, data, w)
      && (w.inodes[path.ino].ctime == path.ctime ==> data == states[from].world.inodes[path.ino].content)
    case Rechecked(from, path, parent, first, after, pathAfter, to, data) =>
      && from <= to < i && Fits(terms, |data|) && first.ino == path.ino && SeenAt(states, from, path) && SeenAt(states, to, pathAfter)
      && (pathAfter.ino == path.ino && pathAfter.ctime == path.ctime ==> data == states[from].world.inodes[path.ino].content)
    case Returned(from, to, ino, data) => Snapshot(states, from, to, ino, data, terms) && to < i
    case Failed => true
  }

  /** At every instant from the first to the last look at the path, the file held exactly `data`. */
  predicate Snapshot(states: seq<State>, from: nat, to: nat, ino: nat, data: Bytes, terms: Terms) {
    && from <= to < |states| && Fits(terms, |data|)
    && PathNames(states[from].world, ino) && PathNames(states[to].world, ino)
    && forall j :: from <= j <= to ==> Holds(states[j].world, ino, data)
  }

  lemma InterferenceKeepsKnowledge(states: seq<State>, terms: Terms, i: nat)
    requires Run(states, terms, true) && 0 < i < |states| && Knows(states, i - 1, terms) && states[i].reader == states[i - 1].reader
    ensures Knows(states, i, terms)
  {
    hide Run, Snapshot;
    var r := states[i - 1].reader;
    if r.Reading? || r.Ended? || r.Closed? { StepForward(states, terms, i, r.path.ino); }
  }

  lemma FirstLook(states: seq<State>, terms: Terms, i: nat, n: nat)
    requires Run(states, terms, true) && 0 < i < |states| && states[i].world == states[i - 1].world
    requires states[i - 1].reader.Idle? || states[i - 1].reader.Seen?
    requires Reads(states[i - 1].world, states[i - 1].reader, states[i].reader, states[i - 1].clock, terms, n) && Knows(states, i - 1, terms)
    ensures Knows(states, i, terms)
  {
    ClockIsIndex(states, terms, true, i - 1);
    hide Run;
  }

  lemma OpenKeepsKnowledge(states: seq<State>, terms: Terms, i: nat, n: nat)
    requires Run(states, terms, true) && 0 < i < |states| && states[i].world == states[i - 1].world
    requires states[i - 1].reader.Opened?
    requires Reads(states[i - 1].world, states[i - 1].reader, states[i].reader, states[i - 1].clock, terms, n) && Knows(states, i - 1, terms)
    ensures Knows(states, i, terms)
  {
    hide Run;
    var r := states[i - 1].reader;
    Forward(states, terms, r.from, i - 1, r.path.ino);
  }

  lemma ReadKeepsKnowledge(states: seq<State>, terms: Terms, i: nat, n: nat)
    requires Run(states, terms, true) && 0 < i < |states| && states[i].world == states[i - 1].world
    requires states[i - 1].reader.Reading?
    requires Reads(states[i - 1].world, states[i - 1].reader, states[i].reader, states[i - 1].clock, terms, n) && Knows(states, i - 1, terms)
    ensures Knows(states, i, terms)
  {
    hide Run;
    var r := states[i - 1].reader;
    Forward(states, terms, r.from, i - 1, r.path.ino);
    var content := states[i - 1].world.inodes[r.path.ino].content;
    if |r.data| < |content| {
      assert content[..|r.data|] + content[|r.data|..|r.data| + n] == content[..|r.data| + n];
    } else {
      assert content[..|content|] == content;
    }
  }

  lemma CloseKeepsKnowledge(states: seq<State>, terms: Terms, i: nat, n: nat)
    requires Run(states, terms, true) && 0 < i < |states| && states[i].world == states[i - 1].world
    requires states[i - 1].reader.Ended? || states[i - 1].reader.Closed?
    requires Reads(states[i - 1].world, states[i - 1].reader, states[i].reader, states[i - 1].clock, terms, n) && Knows(states, i - 1, terms)
    ensures Knows(states, i, terms)
  {
    ClockIsIndex(states, terms, true, i - 1);
    hide Run;
  }

  lemma CompareKeepsKnowledge(states: seq<State>, terms: Terms, i: nat, n: nat)
    requires Run(states, terms, true) && 0 < i < |states| && states[i].world == states[i - 1].world
    requires states[i - 1].reader.Rechecked?
    requires Reads(states[i - 1].world, states[i - 1].reader, states[i].reader, states[i - 1].clock, terms, n) && Knows(states, i - 1, terms)
    ensures Knows(states, i, terms)
  {
    hide Run;
    var r := states[i - 1].reader;
    Forward(states, terms, r.from, r.to, r.path.ino);
  }

  lemma {:induction false} RunKnows(states: seq<State>, terms: Terms, i: nat)
    requires Run(states, terms, true) && i < |states|
    ensures Knows(states, i, terms)
  {
    hide Knows, Reads, Interferes;
    if i == 0 {
      IdleKnows(states, terms);
    } else {
      RunKnows(states, terms, i - 1);
      assert Next(states[i - 1], states[i], terms, true);
      if states[i].reader == states[i - 1].reader {
        InterferenceKeepsKnowledge(states, terms, i);
      } else {
        var n: nat :| Reads(states[i - 1].world, states[i - 1].reader, states[i].reader, states[i - 1].clock, terms, n);
        CallKeepsKnowledge(states, terms, i, n);
      }
    }
  }

  lemma IdleKnows(states: seq<State>, terms: Terms)
    requires states != [] && states[0].reader == Idle
    ensures Knows(states, 0, terms)
  {
  }

  lemma CallKeepsKnowledge(states: seq<State>, terms: Terms, i: nat, n: nat)
    requires Run(states, terms, true) && 0 < i < |states| && states[i].world == states[i - 1].world
    requires states[i].reader != states[i - 1].reader
    requires Reads(states[i - 1].world, states[i - 1].reader, states[i].reader, states[i - 1].clock, terms, n) && Knows(states, i - 1, terms)
    ensures Knows(states, i, terms)
  {
    hide Knows, Run;
    match states[i - 1].reader
    case Idle => FirstLook(states, terms, i, n);
    case Seen(_, _, _) => FirstLook(states, terms, i, n);
    case Opened(_, _, _, _) => OpenKeepsKnowledge(states, terms, i, n);
    case Reading(_, _, _, _, _) => ReadKeepsKnowledge(states, terms, i, n);
    case Ended(_, _, _, _, _) => CloseKeepsKnowledge(states, terms, i, n);
    case Closed(_, _, _, _, _, _) => CloseKeepsKnowledge(states, terms, i, n);
    case Rechecked(_, _, _, _, _, _, _, _) => CompareKeepsKnowledge(states, terms, i, n);
    case Returned(_, _, _, _) => assert false;
    case Failed => assert false;
  }

  /** If content changes advance ctime, a normal return is a snapshot: whatever was interleaved and however
      short the reads, the path named one inode at the first and last look, and in between it always held
      exactly the returned bytes, no more than the limit. */
  lemma StableReadIsSnapshot(states: seq<State>, terms: Terms, i: nat)
    requires Run(states, terms, true) && i < |states| && states[i].reader.Returned?
    ensures var r := states[i].reader;
      Snapshot(states, r.from, r.to, r.ino, r.data, terms) && r.to < i
  {
    hide Run;
    RunKnows(states, terms, i);
  }

  // ---- What a normal return says about the metadata ----

  /** The path was looked at in the instant `from`, and what was seen passed the check before opening. */
  ghost predicate LookedAt(states: seq<State>, from: nat, path: Stat, parent: nat, terms: Terms) {
    && SeenAt(states, from, path) && parent == states[from].world.parent && terms.pathOk(path, parent)
  }

  /** In some instant before `i` the open file looked like `first`. */
  ghost predicate FileLooked(states: seq<State>, i: nat, first: Stat) {
    exists j :: 0 <= j < i && j < |states| && InodeLooked(states, j, first)
  }

  predicate InodeLooked(states: seq<State>, j: nat, first: Stat) {
    j < |states| && first.ino in states[j].world.inodes && first == StatOf(states[j].world, first.ino)
  }

  predicate ParentIs(states: seq<State>, j: nat, parent: nat) {
    j < |states| && states[j].world.parent == parent
  }

  ghost predicate OpenedAs(states: seq<State>, i: nat, from: nat, path: Stat, parent: nat, first: Stat, terms: Terms) {
    LookedAt(states, from, path, parent, terms) && first.ino == path.ino && terms.openOk(first, parent) && FileLooked(states, i, first)
  }

  /** Both looks at the path and both looks at the open file agree and passed every check, the parent was the same
      again after the last look, and what was read is as long as the file said. */
  ghost predicate MetadataHeld(states: seq<State>, i: nat, from: nat, to: nat, ino: nat, size: nat, terms: Terms) {
    exists path: Stat, first: Stat ::
      && path.ino == ino && first.size == size && to < i && from < |states|
      && SeenAt(states, to, path)
      && OpenedAs(states, i, from, path, states[from].world.parent, first, terms)
      && exists j: nat :: to < j < i && ParentIs(states, j, states[from].world.parent)
  }

  ghost predicate Checked(states: seq<State>, i: nat, terms: Terms)
    requires i < |states|
  {
    match states[i].reader
    case Idle => true
    case Seen(from, path, parent) => LookedAt(states, from, path, parent, terms)
    case Opened(from, path, parent, fd) => LookedAt(states, from, path, parent, terms)
    case Reading(from, path, parent, first, data) => OpenedAs(states, i, from, path, parent, first, terms)
    case Ended(from, path, parent, first, data) => OpenedAs(states, i, from, path, parent, first, terms)
    case Closed(from, path, parent, first, after, data) => OpenedAs(states, i, from, path, parent, first, terms)
    case Rechecked(from, path, parent, first, after, pathAfter, to, data) =>
      to < i && OpenedAs(states, i, from, path, parent, first, terms) && SeenAt(states, to, pathAfter)
    case Returned(from, to, ino, data) => MetadataHeld(states, i, from, to, ino, |data|, terms)
    case Failed => true
  }

  lemma StayChecked(states: seq<State>, i: nat, terms: Terms)
    requires 0 < i < |states| && states[i].reader == states[i - 1].reader && Checked(states, i - 1, terms)
    ensures Checked(states, i, terms)
  {
    hide SeenAt, LookedAt, InodeLooked;
    var r := states[i].reader;
    if r.Returned? {
      var path: Stat, first: Stat :|
        && path.ino == r.ino && first.size == |r.data| && r.to < i - 1 && r.from < |states|
        && SeenAt(states, r.to, path)
        && OpenedAs(states, i - 1, r.from, path, states[r.from].world.parent, first, terms)
        && exists j: nat :: r.to < j < i - 1 && ParentIs(states, j, states[r.from].world.parent);
      assert OpenedAs(states, i, r.from, path, states[r.from].world.parent, first, terms);
    }
  }

  lemma CallChecks(states: seq<State>, i: nat, terms: Terms, n: nat)
    requires 0 < i < |states| && states[i].world == states[i - 1].world && states[i - 1].clock == i - 1
    requires Reads(states[i - 1].world, states[i - 1].reader, states[i].reader, i - 1, terms, n)
    requires Checked(states, i - 1, terms) && states[i].reader != states[i - 1].reader
    ensures Checked(states, i, terms)
  {
    var r := states[i - 1].reader;
    if r.Opened? && states[i].reader.Reading? {
      assert InodeLooked(states, i - 1, states[i].reader.first);
    }
    if r.Rechecked? && states[i].reader.Returned? {
      assert ParentIs(states, i - 1, r.parent);
      assert SeenAt(states, r.to, r.path);
      assert OpenedAs(states, i, r.from, r.path, states[r.from].world.parent, r.first, terms);
    }
  }

  lemma {:induction false} RunIsChecked(states: seq<State>, terms: Terms, strict: bool, i: nat)
    requires Run(states, terms, strict) && i < |states|
    ensures Checked(states, i, terms)
  {
    hide Checked, Reads, Interferes;
    if i == 0 {
      IdleIsChecked(states, terms);
    } else {
      RunIsChecked(states, terms, strict, i - 1);
      ClockIsIndex(states, terms, strict, i - 1);
      assert Next(states[i - 1], states[i], terms, strict);
      if states[i].reader == states[i - 1].reader {
        StayChecked(states, i, terms);
      } else {
        var n: nat :| Reads(states[i - 1].world, states[i - 1].reader, states[i].reader, states[i - 1].clock, terms, n);
        CallChecks(states, i, terms, n);
      }
    }
  }

  lemma IdleIsChecked(states: seq<State>, terms: Terms)
    requires states != [] && states[0].reader == Idle
    ensures Checked(states, 0, terms)
  {
  }

  /** However the clock behaves, a normal return means that the path looked the same in the first and the last look,
      that this and a look at the open file passed the reader's checks, that the open file was as long as what was
      read, and that the parent was still the same after the last look. */
  lemma ReturnPassesChecks(states: seq<State>, terms: Terms, strict: bool, i: nat)
    requires Run(states, terms, strict) && i < |states| && states[i].reader.Returned?
    ensures states[i].reader.from < |states| && states[i].reader.to < i
    ensures var r := states[i].reader; var from, to := states[r.from].world, states[r.to].world;
      && PathNames(from, r.ino) && PathNames(to, r.ino)
      && StatOf(from, r.ino) == StatOf(to, r.ino)
      && terms.pathOk(StatOf(from, r.ino), from.parent)
      && (exists j :: && 0 <= j < i && r.ino in states[j].world.inodes
                      && terms.openOk(StatOf(states[j].world, r.ino), from.parent)
                      && StatOf(states[j].world, r.ino).size == |r.data|)
      && (exists j :: r.to < j < i && states[j].world.parent == from.parent)
  {
    hide Run;
    RunIsChecked(states, terms, strict, i);
    var r := states[i].reader;
    var path: Stat, first: Stat :|
      && path.ino == r.ino && first.size == |r.data| && r.to < i && r.from < |states|
      && SeenAt(states, r.to, path)
      && OpenedAs(states, i, r.from, path, states[r.from].world.parent, first, terms)
      && exists j: nat :: r.to < j < i && ParentIs(states, j, states[r.from].world.parent);
  }

  // ---- A file that nobody touches is read ----

  lemma Extend(run: seq<State>, r: Reader, terms: Terms, n: nat)
    requires run != [] && Run(run, terms, true)
    requires var s := run[|run| - 1]; Reads(s.world, s.reader, r, s.clock, terms, n)
    ensures var s := run[|run| - 1]; Run(run + [State(s.world, r, s.clock + 1)], terms, true)
  {
    hide Reads, Interferes;
    var s := run[|run| - 1];
    assert Next(s, State(s.world, r, s.clock + 1), terms, true);
  }

  /** Reading goes on, with any piece the kernel returns, until the whole file was read. */
  lemma {:induction false} ReadToEnd(run: seq<State>, terms: Terms) returns (more: seq<State>)
    requires run != [] && Run(run, terms, true) && run[|run| - 1].reader.Reading?
    requires var s := run[|run| - 1]; var r := s.reader;
      && r.first.ino in s.world.inodes
      && var content := s.world.inodes[r.first.ino].content;
         Fits(terms, |content|) && |r.data| <= |content| && r.data == content[..|r.data|]
    ensures more != [] && Run(more, terms, true) && more[0] == run[0]
    ensures var s := run[|run| - 1]; var r := s.reader; var t := more[|more| - 1];
      t.world == s.world && t.reader == Ended(r.from, r.path, r.parent, r.first, s.world.inodes[r.first.ino].content)
    decreases |run[|run| - 1].world.inodes[run[|run| - 1].reader.first.ino].content| - |run[|run| - 1].reader.data|
  {
    hide Run;
    var s := run[|run| - 1];
    var r := s.reader;
    var content := s.world.inodes[r.first.ino].content;
    if |r.data| == |content| {
      assert content[..|content|] == content;
      var end := Ended(r.from, r.path, r.parent, r.first, r.data);
      Extend(run, end, terms, 0);
      more := run + [State(s.world, end, s.clock + 1)];
    } else {
      var next := Reading(r.from, r.path, r.parent, r.first, r.data + content[|r.data|..|r.data| + 1]);
      assert content[..|r.data|] + content[|r.data|..|r.data| + 1] == content[..|r.data| + 1];
      Extend(run, next, terms, 1);
      more := ReadToEnd(run + [State(s.world, next, s.clock + 1)], terms);
    }
  }

  /** If the path names a file that passes the checks and nobody interferes, a run returns its content. */
  lemma UndisturbedReadReturns(w: World, ino: nat, terms: Terms) returns (run: seq<State>)
    requires PathNames(w, ino) && Fits(terms, |w.inodes[ino].content|)
    requires terms.pathOk(StatOf(w, ino), w.parent) && terms.openOk(StatOf(w, ino), w.parent)
    ensures run != [] && Run(run, terms, true) && run[0].world == w
    ensures var t := run[|run| - 1];
      t.world == w && t.reader.Returned? && t.reader.ino == ino && t.reader.data == w.inodes[ino].content
  {
    var look, content := StatOf(w, ino), w.inodes[ino].content;
    run := [State(w, Idle, 0)];
    assert Run(run, terms, true);
    hide Run;
    run := Step(run, Seen(0, look, w.parent), terms);
    run := Step(run, Opened(0, look, w.parent, ino), terms);
    run := Step(run, Reading(0, look, w.parent, look, []), terms);
    run := ReadToEnd(run, terms);
    run := Step(run, Closed(0, look, w.parent, look, look, content), terms);
    var to := run[|run| - 1].clock;
    run := Step(run, Rechecked(0, look, w.parent, look, look, look, to, content), terms);
    run := Step(run, Returned(0, to, ino, content), terms);
  }

  lemma Step(run: seq<State>, r: Reader, terms: Terms) returns (more: seq<State>)
    requires run != [] && Run(run, terms, true)
    requires var s := run[|run| - 1]; Reads(s.world, s.reader, r, s.clock, terms, 0)
    ensures more != [] && Run(more, terms, true) && more[0] == run[0]
    ensures var s, t := run[|run| - 1], more[|more| - 1]; t == State(s.world, r, s.clock + 1)
  {
    Extend(run, r, terms, 0);
    var s := run[|run| - 1];
    more := run + [State(s.world, r, s.clock + 1)];
  }

  // ---- Without the ctime assumption it fails ----

  function Two(): Terms { Restricted(2, (rest: nat, parent: nat) => true) }

  function Torn(content: Bytes, reader: Reader, clock: nat): State {
    State(World(map[1 := Inode(content, 7, 1, 0)], Some(1), 0), reader, clock)
  }

  /** A writer replaces both bytes between two one-byte reads, with the clock standing still. */
  function TornRun(): seq<State> {
    var before, later, look := [65, 66], [67, 68], Stat(1, 2, 7, 1, 0);
    [ Torn(before, Idle, 0),
      Torn(before, Seen(0, look, 0), 1),
      Torn(before, Opened(0, look, 0, 1), 2),
      Torn(before, Reading(0, look, 0, look, []), 3),
      Torn(before, Reading(0, look, 0, look, [65]), 4),
      Torn(later, Reading(0, look, 0, look, [65]), 5),
      Torn(later, Reading(0, look, 0, look, [65, 68]), 6),
      Torn(later, Ended(0, look, 0, look, [65, 68]), 7),
      Torn(later, Closed(0, look, 0, look, look, [65, 68]), 8),
      Torn(later, Rechecked(0, look, 0, look, look, look, 8, [65, 68]), 9),
      Torn(later, Returned(0, 8, 1, [65, 68]), 10) ]
  }

  lemma TornReadStep(s: State, t: State, n: nat)
    requires t.world == s.world && t.clock == s.clock + 1 && Reads(s.world, s.reader, t.reader, s.clock, Two(), n)
    ensures Next(s, t, Two(), false)
  {
  }

  /** Then a read can return bytes the file never held. */
  lemma TornReadWithoutCtime()
    ensures Run(TornRun(), Two(), false)
    ensures TornRun()[10].reader == Returned(0, 8, 1, [65, 68])
    ensures forall i :: 0 <= i < |TornRun()| ==> TornRun()[i].world.inodes[1].content != [65, 68]
  {
    hide Next;
    var run := TornRun();
    forall i | 0 < i < |run| && i != 5 ensures Next(run[i - 1], run[i], Two(), false) {
      TornReadStep(run[i - 1], run[i], 1);
    }
    TornWrite(run[4], run[5]);
  }

  lemma TornWrite(s: State, t: State)
    requires t.reader == s.reader && t.clock == s.clock + 1 && Interferes(s.world, t.world, false)
    ensures Next(s, t, Two(), false)
  {
  }
}
