/** The open file cache (src/core/ngx_open_file_cache.c), without vnode events.
  *
  * Entries live in a tree (here: a set, searched by name) and in a queue ordered by last access.  An entry that
  * leaves the tree while requests still use its descriptor is detached and lives on until the last of them
  * releases it.  The model adds what the code leaves to the system and to its callers: the set of open
  * descriptors and the handles given out and not yet released.
  */
module OpenFileCache {
  import opened Bytes
  import opened Queue

  type Fd = nat
  type Name = seq<byte>

  /** ngx_cached_open_file_t; `err` is zero or an errno, a closed file has no descriptor. */
  datatype File = File(
    name: Name, fd: Option<Fd>, err: nat, isDir: bool, uniq: nat, count: nat, close: bool, uses: nat,
    created: int, accessed: int)

  /** What a request holds: the entry it will release and the descriptor it was given. */
  datatype Handle = Handle(file: Id, fd: Fd)

  datatype State = State(
    files: map<Id, File>, tree: set<Id>, queue: seq<Id>, current: nat, max: nat,
    open: set<Fd>, handles: map<nat, Handle>)

  // ---------------------------------------------------------------- ownership

  ghost function HandlesOf(handles: map<nat, Handle>, id: Id): set<nat> {
    set h | h in handles && handles[h].file == id
  }

  /** No two entries of the tree have the same name. */
  ghost predicate TreeOk(files: map<Id, File>, tree: set<Id>) {
    && (forall id | id in tree :: id in files)
    && (forall a, b | a in tree && b in tree && a != b :: files[a].name != files[b].name)
  }

  /** The queue holds every entry of the tree once, except those in `out`, which are being worked on. */
  ghost predicate QueueOk(tree: set<Id>, queue: seq<Id>, current: nat, out: set<Id>) {
    && (forall i, j | 0 <= i < j < |queue| :: queue[i] != queue[j])
    && (forall id :: id in queue <==> id in tree && id !in out)
    && out <= tree
    && current == |tree| == |queue| + |out|
  }

  /** An entry of the tree: errors and directories have no descriptor and no users. */
  ghost predicate CachedOk(f: File) {
    if f.err != 0 || f.isDir then f.fd.None? && f.count == 0
    else !f.close && (f.count > 0 ==> f.fd.Some?)
  }

  /** A detached entry lives because somebody still uses it. */
  ghost predicate DetachedOk(f: File) {
    f.close && f.count > 0 && f.err == 0 && !f.isDir && f.fd.Some?
  }

  ghost predicate FilesOk(files: map<Id, File>, tree: set<Id>) {
    forall id | id in files :: if id in tree then CachedOk(files[id]) else DetachedOk(files[id])
  }

  /** The count of an entry is the number of handles on it, and their descriptor is the entry's. */
  ghost predicate HandlesOk(files: map<Id, File>, handles: map<nat, Handle>) {
    && (forall id | id in files :: files[id].count == |HandlesOf(handles, id)|)
    && (forall h | h in handles :: handles[h].file in files && files[handles[h].file].fd == Some(handles[h].fd))
  }

  /** Every open descriptor, except those in `loose`, belongs to exactly one entry. */
  ghost predicate DescriptorsOk(files: map<Id, File>, open: set<Fd>, loose: set<Fd>) {
    && loose <= open
    && (forall id | id in files && files[id].fd.Some? :: files[id].fd.value in open && files[id].fd.value !in loose)
    && (forall a, b | a in files && b in files && a != b && files[a].fd.Some? :: files[a].fd != files[b].fd)
    && (forall fd | fd in open && fd !in loose :: Owned(files, fd))
  }

  ghost predicate Owned(files: map<Id, File>, fd: Fd) {
    exists id :: id in files && files[id].fd == Some(fd)
  }

  ghost predicate Inv(s: State, out: set<Id>, loose: set<Fd>) {
    && TreeOk(s.files, s.tree) && QueueOk(s.tree, s.queue, s.current, out) && FilesOk(s.files, s.tree)
    && HandlesOk(s.files, s.handles) && DescriptorsOk(s.files, s.open, loose)
  }

  ghost predicate Valid(s: State) {
    Inv(s, {}, {}) && s.current <= s.max && s.max >= 1
  }

  // ---------------------------------------------------------------- elementary steps

  /** ngx_queue_remove */
  function Unqueue(s: State, id: Id): State {
    s.(queue := Without(s.queue, id))
  }

  /** ngx_queue_insert_head after setting `accessed` */
  function Enqueue(s: State, id: Id, now: int): State
    requires id in s.files
  {
    s.(queue := [id] + s.queue, files := s.files[id := s.files[id].(accessed := now)])
  }

  /** Leave the tree but stay alive for the handles. */
  function Detach(s: State, id: Id): State
    requires id in s.files && s.current > 0
  {
    s.(tree := s.tree - {id}, current := s.current - 1, files := s.files[id := s.files[id].(close := true)])
  }

  /** ngx_close_file on the entry's descriptor. */
  function CloseFd(s: State, id: Id): State
    requires id in s.files
  {
    var f := s.files[id];
    if f.fd.None? then s else s.(open := s.open - {f.fd.value}, files := s.files[id := f.(fd := None)])
  }

  /** Leave the tree and be freed. */
  function Drop(s: State, id: Id): State
    requires id in s.files && s.current > 0
  {
    s.(tree := s.tree - {id}, current := s.current - 1, files := s.files - {id})
  }

  lemma UnqueueKeeps(s: State, id: Id, loose: set<Fd>)
    requires Inv(s, {}, loose) && id in s.tree
    ensures Inv(Unqueue(s, id), {id}, loose)
  {
    WithoutRemoves(s.queue, id);
  }

  /** No handle points at an entry whose count is zero. */
  lemma NoHandles(files: map<Id, File>, handles: map<nat, Handle>, id: Id)
    requires HandlesOk(files, handles) && id in files && files[id].count == 0
    ensures forall h | h in handles :: handles[h].file != id
  {
    forall h | h in handles
      ensures handles[h].file != id
    {
      assert h in HandlesOf(handles, handles[h].file);
    }
  }

  /** Changing an entry without touching count or descriptor. */
  lemma HandlesSame(files: map<Id, File>, handles: map<nat, Handle>, id: Id, f: File)
    requires HandlesOk(files, handles) && id in files && f.count == files[id].count
    requires f.fd == files[id].fd || files[id].count == 0
    ensures HandlesOk(files[id := f], handles)
  {
    if files[id].count == 0 {
      NoHandles(files, handles, id);
    }
  }

  lemma DescriptorsSame(files: map<Id, File>, open: set<Fd>, loose: set<Fd>, id: Id, f: File)
    requires DescriptorsOk(files, open, loose) && id in files && f.fd == files[id].fd
    ensures DescriptorsOk(files[id := f], open, loose)
  {
    var files' := files[id := f];
    forall fd | fd in open && fd !in loose
      ensures Owned(files', fd)
    {
      var x :| x in files && files[x].fd == Some(fd);
      assert files'[x].fd == Some(fd);
    }
  }

  /** The entry gives up its descriptor, which is closed. */
  lemma DescriptorClosed(files: map<Id, File>, open: set<Fd>, loose: set<Fd>, id: Id, f: File)
    requires DescriptorsOk(files, open, loose) && id in files && files[id].fd.Some? && f.fd.None?
    ensures files[id].fd.value in open
    ensures DescriptorsOk(files[id := f], open - {files[id].fd.value}, loose)
  {
    var files', fd0 := files[id := f], files[id].fd.value;
    forall fd | fd in open - {fd0} && fd !in loose
      ensures Owned(files', fd)
    {
      var x :| x in files && files[x].fd == Some(fd);
      assert files'[x].fd == Some(fd);
    }
  }

  /** An entry without a descriptor takes a loose one. */
  lemma DescriptorTaken(files: map<Id, File>, open: set<Fd>, loose: set<Fd>, id: Id, f: File)
    requires DescriptorsOk(files, open, loose) && id in files && files[id].fd.None?
    requires f.fd.Some? && f.fd.value in loose
    ensures DescriptorsOk(files[id := f], open, loose - {f.fd.value})
  {
    var files' := files[id := f];
    assert files'[id].fd == f.fd;
    forall fd | fd in open && fd !in loose - {f.fd.value}
      ensures Owned(files', fd)
    {
      if fd != f.fd.value {
        var x :| x in files && files[x].fd == Some(fd);
        assert files'[x].fd == Some(fd);
      }
    }
  }

  lemma DescriptorsWithout(files: map<Id, File>, open: set<Fd>, loose: set<Fd>, id: Id)
    requires DescriptorsOk(files, open, loose) && id in files && files[id].fd.None?
    ensures DescriptorsOk(files - {id}, open, loose)
  {
    var files' := files - {id};
    forall fd | fd in open && fd !in loose
      ensures Owned(files', fd)
    {
      var x :| x in files && files[x].fd == Some(fd);
      assert files'[x].fd == Some(fd);
    }
  }

  lemma QueueInserted(tree: set<Id>, queue: seq<Id>, current: nat, id: Id)
    requires QueueOk(tree, queue, current, {id})
    ensures QueueOk(tree, [id] + queue, current, {})
  {
    var queue' := [id] + queue;
    assert forall x :: x in queue' <==> x == id || x in queue;
    assert forall j | 0 < j < |queue'| :: queue'[j] == queue[j - 1];
  }

  lemma FilesSame(files: map<Id, File>, tree: set<Id>, id: Id, f: File)
    requires FilesOk(files, tree) && TreeOk(files, tree) && id in files && f.name == files[id].name
    requires if id in tree then CachedOk(f) else DetachedOk(f)
    ensures FilesOk(files[id := f], tree) && TreeOk(files[id := f], tree)
  {
  }

  lemma EnqueueKeeps(s: State, id: Id, now: int, loose: set<Fd>)
    requires Inv(s, {id}, loose)
    ensures id in s.files && Inv(Enqueue(s, id, now), {}, loose)
  {
    assert id in s.tree;
    var f := s.files[id].(accessed := now);
    QueueInserted(s.tree, s.queue, s.current, id);
    FilesSame(s.files, s.tree, id, f);
    HandlesSame(s.files, s.handles, id, f);
    DescriptorsSame(s.files, s.open, loose, id, f);
  }

  lemma DetachKeeps(s: State, id: Id, loose: set<Fd>)
    requires Inv(s, {id}, loose) && id in s.files && s.files[id].count > 0
    ensures s.current > 0 && Inv(Detach(s, id), {}, loose)
  {
    var f := s.files[id].(close := true);
    HandlesSame(s.files, s.handles, id, f);
    DescriptorsSame(s.files, s.open, loose, id, f);
  }

  lemma CloseFdKeeps(s: State, id: Id, out: set<Id>, loose: set<Fd>)
    requires Inv(s, out, loose) && id in s.tree && id in s.files && s.files[id].count == 0
    ensures Inv(CloseFd(s, id), out, loose)
    ensures s.files[id].fd.Some? ==> s.files[id].fd.value in s.open
  {
    if s.files[id].fd.Some? {
      var f := s.files[id].(fd := None);
      HandlesSame(s.files, s.handles, id, f);
      DescriptorClosed(s.files, s.open, loose, id, f);
    }
  }

  lemma DropKeeps(s: State, id: Id, loose: set<Fd>)
    requires Inv(s, {id}, loose) && id in s.files && s.files[id].count == 0 && s.files[id].fd.None?
    ensures s.current > 0 && Inv(Drop(s, id), {}, loose)
  {
    NoHandles(s.files, s.handles, id);
    DescriptorsWithout(s.files, s.open, loose, id);
  }

  /** count++ and a handle for the caller. */
  function Give(s: State, id: Id, h: nat): State
    requires id in s.files && s.files[id].fd.Some?
  {
    var f := s.files[id];
    s.(files := s.files[id := f.(count := f.count + 1)], handles := s.handles[h := Handle(id, f.fd.value)])
  }

  lemma HandlesOfAdd(handles: map<nat, Handle>, h: nat, handle: Handle, id: Id)
    requires h !in handles
    ensures |HandlesOf(handles[h := handle], id)| == |HandlesOf(handles, id)| + if handle.file == id then 1 else 0
  {
    assert HandlesOf(handles[h := handle], id) ==
      if handle.file == id then HandlesOf(handles, id) + {h} else HandlesOf(handles, id);
  }

  lemma HandleGiven(files: map<Id, File>, handles: map<nat, Handle>, id: Id, h: nat, f: File)
    requires HandlesOk(files, handles) && id in files && h !in handles
    requires f.count == files[id].count + 1 && f.fd == files[id].fd && f.fd.Some?
    ensures HandlesOk(files[id := f], handles[h := Handle(id, f.fd.value)])
  {
    forall x | x in files
      ensures files[id := f][x].count == |HandlesOf(handles[h := Handle(id, f.fd.value)], x)|
    {
      HandlesOfAdd(handles, h, Handle(id, f.fd.value), x);
    }
  }

  lemma GiveKeeps(s: State, id: Id, h: nat, out: set<Id>, loose: set<Fd>)
    requires Inv(s, out, loose) && id in s.tree && id in s.files && h !in s.handles
    requires s.files[id].err == 0 && !s.files[id].isDir && s.files[id].fd.Some?
    ensures Inv(Give(s, id, h), out, loose)
  {
    var f := s.files[id].(count := s.files[id].count + 1);
    var t := Give(s, id, h);
    assert t == s.(files := s.files[id := f], handles := s.handles[h := Handle(id, f.fd.value)]);
    assert CachedOk(f);
    FilesSame(s.files, s.tree, id, f);
    HandleGiven(s.files, s.handles, id, h, f);
    DescriptorsSame(s.files, s.open, loose, id, f);
  }

  /** count-- when a handle is released. */
  function Take(s: State, h: nat): State
    requires h in s.handles && s.handles[h].file in s.files && s.files[s.handles[h].file].count > 0
  {
    var id := s.handles[h].file;
    s.(files := s.files[id := s.files[id].(count := s.files[id].count - 1)], handles := s.handles - {h})
  }

  lemma HandleTaken(files: map<Id, File>, handles: map<nat, Handle>, id: Id, h: nat)
    requires HandlesOk(files, handles) && h in handles && handles[h].file == id
    ensures id in files && files[id].count > 0
    ensures HandlesOk(files[id := files[id].(count := files[id].count - 1)], handles - {h})
  {
    var handles' := handles - {h};
    assert h in HandlesOf(handles, id);
    forall x | x in files
      ensures HandlesOf(handles', x) == if x == id then HandlesOf(handles, x) - {h} else HandlesOf(handles, x)
    {
    }
  }

  lemma TakeKeeps(s: State, h: nat, id: Id)
    requires Inv(s, {}, {}) && h in s.handles && s.handles[h].file == id && id in s.files
    requires id in s.tree || s.files[id].count > 1
    ensures s.files[id].count > 0 && Inv(Take(s, h), {}, {})
  {
    HandleTaken(s.files, s.handles, id, h);
    var f := s.files[id].(count := s.files[id].count - 1);
    FilesSame(s.files, s.tree, id, f);
    DescriptorsSame(s.files, s.open, {}, id, f);
  }

  /** The last handle of a detached entry: descriptor closed, entry freed. */
  function Free(s: State, h: nat): State
    requires h in s.handles
  {
    var id := s.handles[h].file;
    s.(files := s.files - {id}, handles := s.handles - {h}, open := s.open - {s.handles[h].fd})
  }

  lemma HandleFreed(files: map<Id, File>, handles: map<nat, Handle>, id: Id, h: nat)
    requires HandlesOk(files, handles) && h in handles && handles[h].file == id && files[id].count == 1
    ensures HandlesOk(files - {id}, handles - {h})
  {
    assert h in HandlesOf(handles, id);
    assert |HandlesOf(handles, id) - {h}| == 0;
    assert forall g | g in handles && g != h && handles[g].file == id :: g in HandlesOf(handles, id) - {h};
    assert forall x | x in files && x != id :: HandlesOf(handles - {h}, x) == HandlesOf(handles, x);
  }

  lemma DescriptorFreed(files: map<Id, File>, open: set<Fd>, id: Id)
    requires DescriptorsOk(files, open, {}) && id in files && files[id].fd.Some?
    ensures files[id].fd.value in open && DescriptorsOk(files - {id}, open - {files[id].fd.value}, {})
  {
    var files', fd0 := files - {id}, files[id].fd.value;
    forall fd | fd in open - {fd0}
      ensures Owned(files', fd)
    {
      var x :| x in files && files[x].fd == Some(fd);
      assert files'[x].fd == Some(fd);
    }
  }

  lemma FreeKeeps(s: State, h: nat, id: Id)
    requires Inv(s, {}, {}) && h in s.handles && s.handles[h].file == id && id in s.files
    requires id !in s.tree && s.files[id].count == 1
    ensures s.handles[h].fd in s.open && Inv(Free(s, h), {}, {})
  {
    HandleFreed(s.files, s.handles, id, h);
    DescriptorFreed(s.files, s.open, id);
  }

  /** A new entry enters the tree; what allocation leaves unset is set before the entry is stored. */
  function Create(s: State, id: Id, name: Name): State {
    s.(files := s.files[id := File(name, None, 0, false, 0, 0, false, 1, 0, 0)], tree := s.tree + {id},
       current := s.current + 1)
  }

  lemma DescriptorsWith(files: map<Id, File>, open: set<Fd>, loose: set<Fd>, id: Id, f: File)
    requires DescriptorsOk(files, open, loose) && id !in files && f.fd.None?
    ensures DescriptorsOk(files[id := f], open, loose)
  {
    var files' := files[id := f];
    forall fd | fd in open && fd !in loose
      ensures Owned(files', fd)
    {
      var x :| x in files && files[x].fd == Some(fd);
      assert files'[x].fd == Some(fd);
    }
  }

  lemma HandlesWith(files: map<Id, File>, handles: map<nat, Handle>, id: Id, f: File)
    requires HandlesOk(files, handles) && id !in files && f.count == 0
    ensures HandlesOk(files[id := f], handles)
  {
    assert HandlesOf(handles, id) == {};
  }

  lemma QueueCreated(tree: set<Id>, queue: seq<Id>, current: nat, id: Id)
    requires QueueOk(tree, queue, current, {}) && id !in tree
    ensures QueueOk(tree + {id}, queue, current + 1, {id})
  {
  }

  lemma FilesCreated(files: map<Id, File>, tree: set<Id>, id: Id, f: File)
    requires FilesOk(files, tree) && TreeOk(files, tree) && id !in files && CachedOk(f)
    requires forall x | x in tree :: files[x].name != f.name
    ensures FilesOk(files[id := f], tree + {id}) && TreeOk(files[id := f], tree + {id})
  {
  }

  lemma CreateKeeps(s: State, id: Id, name: Name, loose: set<Fd>)
    requires Inv(s, {}, loose) && id !in s.files && forall x | x in s.tree :: s.files[x].name != name
    ensures Inv(Create(s, id, name), {id}, loose)
  {
    var f := File(name, None, 0, false, 0, 0, false, 1, 0, 0);
    QueueCreated(s.tree, s.queue, s.current, id);
    FilesCreated(s.files, s.tree, id, f);
    DescriptorsWith(s.files, s.open, loose, id, f);
    HandlesWith(s.files, s.handles, id, f);
  }

  // ---------------------------------------------------------------- age order

  /** From head to tail the queue goes back in time, and nothing was accessed after `time`. */
  ghost predicate InOrder(files: map<Id, File>, queue: seq<Id>, time: int) {
    && (forall i | 0 <= i < |queue| :: queue[i] in files && files[queue[i]].accessed <= time)
    && (forall i, j | 0 <= i < j < |queue| :: files[queue[i]].accessed >= files[queue[j]].accessed)
  }

  lemma OrderWithout(files: map<Id, File>, queue: seq<Id>, time: int, id: Id)
    requires InOrder(files, queue, time)
    ensures InOrder(files, Without(queue, id), time)
  {
    var q := Without(queue, id);
    forall i | 0 <= i < |q|
      ensures q[i] in files && files[q[i]].accessed <= time
    {
      var k := WithoutMember(queue, id, i);
    }
    forall i, j | 0 <= i < j < |q|
      ensures files[q[i]].accessed >= files[q[j]].accessed
    {
      var k, l := WithoutIsSubsequence(queue, id, i, j);
    }
  }

  lemma OrderInsert(files: map<Id, File>, queue: seq<Id>, time: int, id: Id, f: File)
    requires InOrder(files, queue, time) && id !in queue && f.accessed >= time
    ensures InOrder(files[id := f], [id] + queue, f.accessed)
  {
    var queue', files' := [id] + queue, files[id := f];
    assert forall i | 0 <= i < |queue| :: queue'[i + 1] == queue[i] && queue[i] != id;
    forall i, j | 0 <= i < j < |queue'|
      ensures queue'[j] in files' && files'[queue'[i]].accessed >= files'[queue'[j]].accessed
    {
      if i > 0 {
        assert queue'[i] == queue[i - 1] && queue'[j] == queue[j - 1];
      } else {
        assert queue'[j] == queue[j - 1];
      }
    }
  }

  /** Changes to entries outside the queue do not matter. */
  lemma OrderElsewhere(files: map<Id, File>, files': map<Id, File>, queue: seq<Id>, time: int, time': int)
    requires InOrder(files, queue, time) && time <= time'
    requires forall id | id in queue :: id in files' && files'[id].accessed == files[id].accessed
    ensures InOrder(files', queue, time')
  {
    assert forall i | 0 <= i < |queue| :: queue[i] in queue;
  }

  /** The time of the last access, and whether the clock has never run backwards from one to the next. */
  datatype Clock = Clock(time: int, steady: bool) {
    function Tick(now: int): Clock {
      Clock(now, steady && time <= now)
    }
  }

  /** The queue is in the order of the last accesses, as long as the clock runs forwards. */
  ghost predicate Aged(files: map<Id, File>, queue: seq<Id>, clock: Clock) {
    && (forall i | 0 <= i < |queue| :: queue[i] in files)
    && (clock.steady ==> InOrder(files, queue, clock.time))
  }

  lemma AgedWithout(files: map<Id, File>, queue: seq<Id>, clock: Clock, id: Id)
    requires Aged(files, queue, clock)
    ensures Aged(files, Without(queue, id), clock)
  {
    var q := Without(queue, id);
    forall i | 0 <= i < |q|
      ensures q[i] in files
    {
      var k := WithoutMember(queue, id, i);
    }
    if clock.steady {
      OrderWithout(files, queue, clock.time, id);
    }
  }

  lemma AgedInsert(files: map<Id, File>, queue: seq<Id>, clock: Clock, id: Id, f: File)
    requires Aged(files, queue, clock) && id !in queue
    ensures Aged(files[id := f], [id] + queue, clock.Tick(f.accessed))
  {
    var queue' := [id] + queue;
    assert forall i | 0 < i < |queue'| :: queue'[i] == queue[i - 1];
    if clock.Tick(f.accessed).steady {
      OrderInsert(files, queue, clock.time, id, f);
    }
  }

  lemma AgedElsewhere(files: map<Id, File>, files': map<Id, File>, queue: seq<Id>, clock: Clock)
    requires Aged(files, queue, clock)
    requires forall id | id in queue :: id in files' && id in files && files'[id].accessed == files[id].accessed
    ensures Aged(files', queue, clock) && forall now :: Aged(files', queue, clock.Tick(now))
  {
    assert forall i | 0 <= i < |queue| :: queue[i] in queue;
    if clock.steady {
      OrderElsewhere(files, files', queue, clock.time, clock.time);
    }
    forall now: int | clock.Tick(now).steady
      ensures InOrder(files', queue, now)
    {
      OrderElsewhere(files, files', queue, clock.time, now);
    }
  }

  // ---------------------------------------------------------------- the operations

  /** The system's answers during one call; the file system does not change meanwhile.  `newFd` is the
    * descriptor a successful open returns, `errno` what a failing call sets. */
  datatype Os = Os(statOk: bool, openOk: bool, fdInfoOk: bool, errno: nat, uniq: nat, isDir: bool, newFd: Fd)

  /** The fields of ngx_open_file_info_t that the caller sets. */
  datatype Wanted = Wanted(uniq: nat, valid: int, minUses: nat, errors: bool)

  /** What ngx_open_and_stat_file leaves in ngx_open_file_info_t. */
  datatype Probe = Probe(ok: bool, fd: Option<Fd>, err: nat, uniq: nat, isDir: bool)

  /** ngx_open_and_stat_file: with a descriptor it only looks whether the file is still the same one; a
    * directory is opened, looked at and closed again. */
  function OpenAndStat(fd: Option<Fd>, uniq: nat, testDir: bool, os: Os): Probe {
    if (fd.Some? || testDir) && !os.statOk then Probe(false, None, os.errno, uniq, false)
    else if fd.Some? && uniq == os.uniq then Probe(true, fd, 0, os.uniq, os.isDir)
    else if fd.None? && testDir && os.isDir then Probe(true, None, 0, os.uniq, true)
    else if !os.openOk then Probe(false, None, os.errno, uniq, false)
    else if !os.fdInfoOk then Probe(false, None, 0, uniq, false)
    else Probe(true, if os.isDir then None else Some(os.newFd), 0, os.uniq, os.isDir)
  }

  /** The probe opened a descriptor that nobody owns yet. */
  function Loose(p: Probe, fd: Option<Fd>): set<Fd> {
    if p.fd.Some? && p.fd != fd then {p.fd.value} else {}
  }

  datatype Reply = Granted(handle: nat, fd: Fd) | Directory | Error(err: nat)

  /** Is the cached entry good enough without asking the system? */
  predicate Fresh(f: File, want: Wanted, now: int) {
    && !(f.fd.None? && f.err == 0 && !f.isDir)
    && (want.uniq == 0 || want.uniq == f.uniq) && now - f.created < want.valid
  }

  /** One more use. */
  function Counted(f: File): File {
    f.(uses := f.uses + 1)
  }

  /** How the system is asked about a cached entry; one without descriptor is opened again. */
  function ProbeFor(f: File, want: Wanted, os: Os): Probe {
    if f.fd.None? && f.err == 0 && !f.isDir then OpenAndStat(None, want.uniq, false, os)
    else OpenAndStat(f.fd, f.uniq, f.isDir, os)
  }

  /** What the caller learns: from the cached entry while it is fresh, else from the system. */
  ghost predicate Answers(r: Reply, f: Option<File>, want: Wanted, os: Os, now: int) {
    if f.Some? && Fresh(f.value, want, now) then
      if f.value.err != 0 then r == Error(f.value.err)
      else if f.value.isDir then r == Directory
      else r.Granted? && Some(r.fd) == f.value.fd
    else
      var p := if f.None? then OpenAndStat(None, want.uniq, false, os) else ProbeFor(f.value, want, os);
      if !p.ok then r == Error(p.err)
      else if p.isDir then r == Directory
      else r.Granted? && Some(r.fd) == p.fd
  }

  /** An unqueued entry leaves the cache: detached while it is in use, else closed and freed. */
  function Evict(s: State, id: Id): State
    requires id in s.files && s.current > 0
  {
    if s.files[id].count > 0 then Detach(s, id) else Drop(CloseFd(s, id), id)
  }

  /** What evicting changes. */
  lemma EvictFrame(s: State, id: Id)
    requires id in s.files && s.current > 0
    ensures var s' := Evict(s, id);
      && s'.queue == s.queue && s'.current == s.current - 1 && s'.max == s.max
      && s'.handles == s.handles && s'.tree == s.tree - {id} && s'.open <= s.open
      && (forall x | x in s'.files :: x in s.files)
      && (forall x | x in s.files && x != id :: x in s'.files && s'.files[x] == s.files[x])
  {
  }

  lemma EvictKeeps(s: State, id: Id, loose: set<Fd>)
    requires Inv(s, {id}, loose)
    ensures id in s.tree && id in s.files && s.current > 0 && Inv(Evict(s, id), {}, loose)
  {
    assert id in s.tree;
    if s.files[id].count > 0 {
      DetachKeeps(s, id, loose);
    } else {
      CloseFdKeeps(s, id, {id}, loose);
      CloseFdUnowned(s, id);
      DropKeeps(CloseFd(s, id), id, loose);
    }
  }

  lemma CloseFdUnowned(s: State, id: Id)
    requires id in s.files
    ensures id in CloseFd(s, id).files && CloseFd(s, id).files[id] == s.files[id].(fd := None)
    ensures CloseFd(s, id).current == s.current
  {
  }

  /** Evicting the entry at the tail. */
  function EvictOldest(s: State): State
    requires s.queue != [] && s.queue[|s.queue| - 1] in s.files && s.current > 0
  {
    Evict(Unqueue(s, s.queue[|s.queue| - 1]), s.queue[|s.queue| - 1])
  }

  lemma OldestIsKnown(s: State, out: set<Id>, loose: set<Fd>)
    requires Inv(s, out, loose) && s.queue != []
    ensures s.queue[|s.queue| - 1] in s.tree && s.queue[|s.queue| - 1] in s.files && s.current > 0
  {
    assert s.queue[|s.queue| - 1] in s.queue;
  }

  lemma EvictOldestKeeps(s: State, loose: set<Fd>)
    requires Inv(s, {}, loose) && s.queue != [] && s.queue[|s.queue| - 1] in s.files && s.current > 0
    ensures Inv(EvictOldest(s), {}, loose)
  {
    OldestIsKnown(s, {}, loose);
    var id := s.queue[|s.queue| - 1];
    UnqueueKeeps(s, id, loose);
    EvictKeeps(Unqueue(s, id), id, loose);
  }

  /** s is s0 after the d oldest entries were evicted. */
  ghost predicate Trimmed(s0: State, s: State, d: nat) {
    && d <= |s0.queue| && s.queue == s0.queue[..|s0.queue| - d] && s.current == s0.current - d && s.max == s0.max
    && s.handles == s0.handles && s.tree <= s0.tree
    && (forall x | x in s.files :: x in s0.files)
    && (forall x | x in s.tree :: x in s0.files && x in s.files && s.files[x] == s0.files[x])
    && (forall x | x in s0.files && x !in s0.tree :: x in s.files && s.files[x] == s0.files[x])
    && s.open <= s0.open
  }

  lemma EvictOldestFrame(s: State)
    requires s.queue != [] && s.queue[|s.queue| - 1] in s.files && s.current > 0
    requires s.tree <= s.files.Keys
    requires forall i, j | 0 <= i < j < |s.queue| :: s.queue[i] != s.queue[j]
    requires s.queue[|s.queue| - 1] in s.tree
    ensures Trimmed(s, EvictOldest(s), 1)
  {
    WithoutLast(s.queue);
    EvictFrame(Unqueue(s, s.queue[|s.queue| - 1]), s.queue[|s.queue| - 1]);
  }

  lemma TrimmedMore(s0: State, s: State, s': State, d: nat)
    requires Trimmed(s0, s, d) && Trimmed(s, s', 1)
    ensures Trimmed(s0, s', d + 1)
  {
    assert s.queue[..|s.queue| - 1] == s0.queue[..|s0.queue| - d - 1];
  }

  lemma TrimmedAged(s: State, s': State, d: nat, clock: Clock)
    requires Trimmed(s, s', d) && Aged(s.files, s.queue, clock)
    requires forall id | id in s'.queue :: id in s'.tree
    ensures Aged(s'.files, s'.queue, clock)
  {
    assert forall i | 0 <= i < |s'.queue| :: s'.queue[i] == s.queue[i] && s'.queue[i] in s'.queue;
  }

  lemma ExpiredAged(s0: State, s: State, d: nat, n: nat, now: int, inactive: int, loose: set<Fd>, clock: Clock)
    requires Expired(s0, s, d, n, now, inactive) && Inv(s, {}, loose) && Aged(s0.files, s0.queue, clock)
    ensures Aged(s.files, s.queue, clock)
  {
    TrimmedAged(s0, s, d, clock);
  }

  /** The entry at position i was not used for too long. */
  ghost predicate Idle(s: State, i: nat, now: int, inactive: int) {
    i < |s.queue| && s.queue[i] in s.files && now - s.files[s.queue[i]].accessed > inactive
  }

  /** Those evicted, at most three and the first excepted if it went by force, were idle. */
  ghost predicate Inactive(s: State, d: nat, forced: nat, now: int, inactive: int) {
    && d <= 3 && d <= |s.queue|
    && (d >= 1 && forced == 0 ==> Idle(s, |s.queue| - 1, now, inactive))
    && (d >= 2 ==> Idle(s, |s.queue| - 2, now, inactive))
    && (d >= 3 ==> Idle(s, |s.queue| - 3, now, inactive))
  }

  lemma TrimmedNothing(s: State)
    requires s.tree <= s.files.Keys
    ensures Trimmed(s, s, 0)
  {
    assert s.queue[..|s.queue|] == s.queue;
  }

  /** The oldest entry has been used recently enough. */
  ghost predicate StillActive(s: State, now: int, inactive: int)
    requires s.queue != []
  {
    s.queue[|s.queue| - 1] in s.files && now - s.files[s.queue[|s.queue| - 1]].accessed <= inactive
  }

  lemma InactiveMore(s0: State, s: State, d: nat, forced: nat, now: int, inactive: int)
    requires Trimmed(s0, s, d) && s.queue != [] && s.queue[|s.queue| - 1] in s.tree && forced <= 1
    requires d < 3 && Inactive(s0, d, forced, now, inactive)
    requires d >= forced ==> now - s.files[s.queue[|s.queue| - 1]].accessed > inactive
    ensures Inactive(s0, d + 1, forced, now, inactive)
  {
    assert s0.queue[|s0.queue| - d - 1] == s.queue[|s.queue| - 1];
  }

  ghost predicate Expired(s0: State, s: State, d: nat, n: nat, now: int, inactive: int) {
    n <= 1 && d <= 3 - n && Trimmed(s0, s, d) && Inactive(s0, d, 1 - n, now, inactive)
  }

  lemma ExpiredMore(s0: State, before: State, s: State, d: nat, n: nat, now: int, inactive: int)
    requires Expired(s0, before, d, n, now, inactive) && n + d < 3
    requires before.queue != [] && before.queue[|before.queue| - 1] in before.tree && before.tree <= before.files.Keys
    requires n + d > 0 ==> now - before.files[before.queue[|before.queue| - 1]].accessed > inactive
    requires Trimmed(before, s, 1)
    ensures Expired(s0, s, d + 1, n, now, inactive)
  {
    TrimmedMore(s0, before, s, d);
    InactiveMore(s0, before, d, 1 - n, now, inactive);
  }

  /** One more turn of the expiry loop. */
  lemma ExpireTurn(s0: State, before: State, s: State, d: nat, n: nat, now: int, inactive: int, loose: set<Fd>)
    requires Inv(before, {}, loose) && Expired(s0, before, d, n, now, inactive) && n + d < 3
    requires before.queue != [] && before.queue[|before.queue| - 1] in before.files
    requires n + d > 0 ==> now - before.files[before.queue[|before.queue| - 1]].accessed > inactive
    requires Trimmed(before, s, 1)
    ensures Expired(s0, s, d + 1, n, now, inactive)
  {
    OldestIsKnown(before, {}, loose);
    ExpiredMore(s0, before, s, d, n, now, inactive);
  }

  lemma ExpiredNothing(s: State, n: nat, now: int, inactive: int, loose: set<Fd>)
    requires Inv(s, {}, loose) && n <= 1
    ensures Expired(s, s, 0, n, now, inactive)
  {
    TrimmedNothing(s);
  }

  /** The loop of ngx_expire_old_cached_files. */
  method ExpireFrom(s0: State, n: nat, now: int, inactive: int, ghost loose: set<Fd>) returns (s: State, ghost d: nat)
    requires n <= 1
    requires Inv(s0, {}, loose)
    ensures Inv(s, {}, loose)
    ensures Expired(s0, s, d, n, now, inactive)
    ensures d < 3 - n ==> s.queue == [] || (n + d > 0 && StillActive(s, now, inactive))
  {
    var k := n;
    s, d := s0, 0;
    ExpiredNothing(s, n, now, inactive, loose);
    while k < 3 && s.queue != []
      invariant n <= k <= 3 && d == k - n
      invariant Inv(s, {}, loose)
      invariant Expired(s0, s, d, n, now, inactive)
    {
      OldestIsKnown(s, {}, loose);
      if k != 0 && now - s.files[s.queue[|s.queue| - 1]].accessed <= inactive {
        return;
      }
      EvictOldestKeeps(s, loose);
      EvictOldestFrame(s);
      ExpireTurn(s0, s, EvictOldest(s), d, n, now, inactive, loose);
      s := EvictOldest(s);
      k, d := k + 1, d + 1;
    }
  }

  class Cache {
    var s: State
    ghost var clock: Clock
    const inactive: int

    constructor (max: nat, inactive: int, ghost start: int)
      requires max >= 1
      ensures Valid(s) && Aged(s.files, s.queue, clock) && clock == Clock(start, true) && s.handles == map[] && s.open == {}
      ensures this.inactive == inactive
    {
      s := State(map[], {}, [], 0, max, {}, map[]);
      clock := Clock(start, true);
      this.inactive := inactive;
    }

    /** ngx_expire_old_cached_files: n == 0 drops the oldest entry by force and up to two inactive ones,
      * n == 1 only drops up to two inactive ones; it stops at the first entry that is still active. */
    method Expire(n: nat, now: int, ghost loose: set<Fd>) returns (ghost d: nat)
      requires n <= 1
      requires Inv(s, {}, loose) && Aged(s.files, s.queue, clock)
      modifies this`s
      ensures Inv(s, {}, loose) && Aged(s.files, s.queue, clock)
      ensures Expired(old(s), s, d, n, now, inactive)
      ensures d < 3 - n ==> s.queue == [] || (n + d > 0 && StillActive(s, now, inactive))
    {
      var t;
      t, d := ExpireFrom(s, n, now, inactive, loose);
      ExpiredAged(s, t, d, n, now, inactive, loose, clock);
      s := t;
    }

    /** ngx_close_cached_file for a detached entry: the last user frees it and closes its descriptor. */
    method ReleaseDetached(h: nat, now: int)
      requires Valid(s) && Aged(s.files, s.queue, clock) && h in s.handles
      requires s.handles[h].file in s.files && s.handles[h].file !in s.tree
      modifies this
      ensures Valid(s) && Aged(s.files, s.queue, clock) && clock == old(clock).Tick(now)
      ensures s == if old(s).files[old(s).handles[h].file].count > 1 then Take(old(s), h) else Free(old(s), h)
    {
      var id := s.handles[h].file;
      HandledFile(s, h);
      if s.files[id].count > 1 {
        TakeKeeps(s, h, id);
        TakeAged(s, h, clock, now);
        s := Take(s, h);
      } else {
        FreeKeeps(s, h, id);
        FreeAged(s, h, clock, now);
        s := Free(s, h);
      }
      clock := clock.Tick(now);
    }

    /** ngx_close_cached_file for an entry of the tree, if it was used too rarely to stay open. */
    method CloseUnused(id: Id)
      requires Valid(s) && Aged(s.files, s.queue, clock) && id in s.tree && id in s.files && s.files[id].count == 0
      modifies this`s
      ensures Valid(s) && Aged(s.files, s.queue, clock)
      ensures s == CloseFd(old(s), id)
    {
      CloseFdKeeps(s, id, {}, {});
      CloseFdAged(s, id, clock);
      s := CloseFd(s, id);
    }

    method ReleaseCached(h: nat, minUses: nat, now: int)
      requires Valid(s) && Aged(s.files, s.queue, clock) && h in s.handles
      requires s.handles[h].file in s.files && s.handles[h].file in s.tree && s.files[s.handles[h].file].count > 0
      modifies this
      ensures Valid(s) && Aged(s.files, s.queue, clock) && clock == old(clock).Tick(now)
      ensures s == PutBack(old(s), h, minUses, now)
    {
      var id := s.handles[h].file;
      HandledFile(s, h);
      TakeKeeps(s, h, id);
      TakeAged(s, h, clock, now);
      s := Take(s, h);
      MoveToHead(id, now);
      if !(s.files[id].uses >= minUses || s.files[id].count > 0) {
        CloseUnused(id);
      }
    }

    /** ngx_open_file_cleanup: a request releases its handle, and then up to two idle entries go.  The descriptor stays
      * open exactly if another request uses it, or if the entry is in the cache and was used often enough. */
    method Release(h: nat, minUses: nat, now: int)
      requires Valid(s) && Aged(s.files, s.queue, clock) && h in s.handles
      modifies this
      ensures Valid(s) && Aged(s.files, s.queue, clock) && clock == old(clock).Tick(now)
      ensures s.handles == old(s.handles) - {h} && s.max == old(s.max)
      ensures s.open <= old(s.open)
      ensures inactive >= 0 ==>
        (old(s.handles)[h].fd in s.open <==> StaysOpen(old(s).files, old(s.handles)[h].file, minUses))
    {
      ghost var s0, id := s, s.handles[h].file;
      HandledFile(s, h);
      if s.files[s.handles[h].file].close {
        ReleaseDetached(h, now);
      } else {
        ReleaseCached(h, minUses, now);
        PutBackIs(s0, h, minUses, now);
      }
      ghost var s1 := s;
      ghost var d := Expire(1, now, {});
      if inactive >= 0 {
        ReleasedStays(s0, s1, s, h, minUses, now, inactive, d);
      }
    }

    /** Labels `update` and `found`: the entry takes over what the probe found, the caller gets a handle
      * on a regular file, and the entry becomes the most recently accessed one. */
    method Store(id: Id, p: Probe, close: bool, isDir: bool, h: nat, now: int) returns (r: Reply)
      requires id in s.files && Inv(s, {id}, Loose(p, s.files[id].fd)) && s.current <= s.max && s.max >= 1
      requires Aged(s.files, s.queue, clock) && h !in s.handles
      requires Storable(s.files[id], p)
      modifies this
      ensures Valid(s) && Aged(s.files, s.queue, clock) && clock == old(clock).Tick(now) && s.max == old(s.max)
      ensures r == ReplyTo(p, h) && GivenTo(old(s), s, r, old(s.files)[id].name)
      ensures Entered(s, old(s.files)[id].name, old(s.files)[id].uses, now, now) && Holds(s, p)
    {
      StoredKeeps(s, id, p, close, isDir, h, now);
      StoredFrame(s, id, p, close, isDir, h, now);
      StoredAged(s, id, p, close, isDir, h, now, clock);
      r := ReplyTo(p, h);
      s := Stored(s, id, p, close, isDir, h, now);
      Insert(id, now, {});
      assert AtHead(s, id, now);
    }

    /** Label `failed`: the unqueued entry leaves the cache. */
    method Fail(id: Id)
      requires Inv(s, {id}, {}) && s.current <= s.max && s.max >= 1 && Aged(s.files, s.queue, clock)
      modifies this`s
      ensures Valid(s) && Aged(s.files, s.queue, clock) && s.handles == old(s.handles) && s.max == old(s.max)
      ensures NotCached(s, old(s.files)[id].name)
    {
      NameGoes(s, id);
      EvictKeeps(s, id, {});
      EvictFrame(s, id);
      EvictAged(s, id, clock);
      s := Evict(s, id);
    }

    /** Label `create`: make room, then a new entry for what the probe found.  `slot` is what the allocator
      * returns, and `junkClose` and `junkDir` are what it leaves in fields the code does not set. */
    method CreateEntry(name: Name, p: Probe, haveMemory: bool, slot: Id, junkClose: bool, junkDir: bool, h: nat, now: int)
      returns (r: Reply)
      requires Inv(s, {}, Loose(p, None)) && s.current <= s.max && s.max >= 1 && Aged(s.files, s.queue, clock)
      requires (forall x | x in s.tree :: s.files[x].name != name) && slot !in s.files && h !in s.handles
      requires (p.ok || p.err != 0) && (p.err != 0 ==> p.fd.None?) && (p.err == 0 ==> (p.isDir <==> p.fd.None?))
      modifies this
      ensures Valid(s) && Aged(s.files, s.queue, clock) && s.max == old(s.max)
      ensures clock == old(clock).Tick(now) || clock == old(clock)
      ensures r == (if haveMemory then ReplyTo(p, h) else Error(p.err)) && GivenTo(old(s), s, r, name)
      ensures haveMemory ==> Entered(s, name, 1, now, now) && Holds(s, p)
    {
      ghost var loose := Loose(p, None);
      if s.current >= s.max {
        ghost var d := Expire(0, now, loose);
        RoomMade(old(s), s, d, now, inactive);
      }
      if !haveMemory {
        if p.fd.Some? {
          LooseClosed(s, p.fd.value);
          s := s.(open := s.open - {p.fd.value});
        }
        return Error(p.err);
      }
      ghost var before := s;
      r := AddEntry(name, p, slot, junkClose, junkDir, h, now);
      GivenLater(old(s), before, s, r, name);
    }

    /** The new entry, where there is room for it. */
    method AddEntry(name: Name, p: Probe, slot: Id, junkClose: bool, junkDir: bool, h: nat, now: int) returns (r: Reply)
      requires Inv(s, {}, Loose(p, None)) && s.current < s.max && Aged(s.files, s.queue, clock)
      requires (forall x | x in s.tree :: s.files[x].name != name) && slot !in s.files && h !in s.handles
      requires (p.ok || p.err != 0) && (p.err != 0 ==> p.fd.None?) && (p.err == 0 ==> (p.isDir <==> p.fd.None?))
      modifies this
      ensures Valid(s) && Aged(s.files, s.queue, clock) && s.max == old(s.max) && clock == old(clock).Tick(now)
      ensures r == ReplyTo(p, h) && GivenTo(old(s), s, r, name) && Entered(s, name, 1, now, now) && Holds(s, p)
    {
      CreateKeeps(s, slot, name, Loose(p, None));
      AgedCreate(s, slot, name, clock);
      s := Create(s, slot, name);
      r := Store(slot, p, junkClose, junkDir, h, now);
    }

    /** A fresh entry answers by itself. */
    method Hit(id: Id, h: nat, now: int) returns (r: Reply)
      requires id in s.files && Inv(s, {id}, {}) && s.current <= s.max && s.max >= 1
      requires Aged(s.files, s.queue, clock) && h !in s.handles
      requires s.files[id].err != 0 || s.files[id].isDir || s.files[id].fd.Some?
      modifies this
      ensures Valid(s) && Aged(s.files, s.queue, clock) && clock == old(clock).Tick(now) && s.max == old(s.max)
      ensures GivenTo(old(s), s, r, old(s.files)[id].name)
      ensures Entered(s, old(s.files)[id].name, old(s.files)[id].uses, old(s.files)[id].created, now)
      ensures SameFile(s, old(s.files)[id])
      ensures var f := old(s.files)[id];
        r == if f.err != 0 then Error(f.err) else if f.isDir then Directory else Granted(h, f.fd.value)
    {
      var f := s.files[id];
      if f.err == 0 && !f.isDir {
        assert id in s.tree;
        GiveKeeps(s, id, h, {id}, {});
        GiveAged(s, id, h, clock);
        s := Give(s, id, h);
      }
      Insert(id, now, {});
      assert AtHead(s, id, now);
      r := if f.err != 0 then Error(f.err) else if f.isDir then Directory else Granted(h, f.fd.value);
    }

    /** The entry was looked up again: it is kept, refilled, or detached in favour of a new one. */
    method Retest(id: Id, name: Name, p: Probe, haveMemory: bool, slot: Id, junkClose: bool, junkDir: bool, h: nat, now: int)
      returns (r: Reply)
      requires id in s.files && s.files[id].name == name && Inv(s, {id}, Loose(p, s.files[id].fd))
      requires s.current <= s.max && s.max >= 1 && Aged(s.files, s.queue, clock)
      requires slot !in s.files && h !in s.handles
      requires Probed(s.files[id], p)
      modifies this
      ensures clock == old(clock).Tick(now) || clock == old(clock)
      ensures Valid(s) && Aged(s.files, s.queue, clock) && s.max == old(s.max)
      ensures GivenTo(old(s), s, r, name)
      ensures haveMemory ==> r == ReplyTo(p, h) && Holds(s, p)
      ensures haveMemory ==> Entered(s, name, if Stays(old(s.files)[id], p) then old(s.files)[id].uses else 1, now, now)
    {
      var f := s.files[id];
      assert id in s.tree && CachedOk(f);
      var keep := f.isDir || f.err != 0 || (p.err == 0 && !p.isDir && p.uniq == f.uniq);
      if keep {
        r := Store(id, p, f.close, f.isDir, h, now);
      } else if f.count == 0 {
        LooseDiffers(p, f);
        CloseFdKeeps(s, id, {id}, Loose(p, f.fd));
        CloseFdAged(s, id, clock);
        CloseFdUnowned(s, id);
        s := CloseFd(s, id);
        r := Store(id, p, f.close, f.isDir, h, now);
      } else {
        LooseDiffers(p, f);
        DetachKeeps(s, id, Loose(p, f.fd));
        OthersDiffer(s, id);
        DetachAged(s, id, clock);
        s := Detach(s, id);
        r := CreateEntry(name, p, haveMemory, slot, junkClose, junkDir, h, now);
      }
    }

    /** The system is asked about an unqueued entry. */
    method Recheck(id: Id, name: Name, p: Probe, want: Wanted, haveMemory: bool, slot: Id, junkClose: bool, junkDir: bool,
                   h: nat, now: int)
      returns (r: Reply)
      requires id in s.files && s.files[id].name == name && Inv(s, {id}, {}) && Loose(p, s.files[id].fd) !! s.open
      requires s.current <= s.max && s.max >= 1 && Aged(s.files, s.queue, clock)
      requires slot !in s.files && h !in s.handles
      requires !p.ok ==> p.fd.None? && !p.isDir
      requires p.ok || p.err != 0 ==> Probed(s.files[id], p)
      modifies this
      ensures clock == old(clock).Tick(now) || clock == old(clock)
      ensures Valid(s) && Aged(s.files, s.queue, clock) && s.max == old(s.max)
      ensures GivenTo(old(s), s, r, name)
      ensures haveMemory ==> r == ReplyTo(p, h)
      ensures haveMemory ==> Remembered(s, name, p, want, Some(old(s.files)[id]), now)
    {
      if !p.ok && (p.err == 0 || !want.errors) {
        Fail(id);
        return Error(p.err);
      }
      ghost var s0 := s;
      LooseOpened(s, {id}, Loose(p, s.files[id].fd));
      s := s.(open := s.open + Loose(p, s.files[id].fd));
      r := Retest(id, name, p, haveMemory, slot, junkClose, junkDir, h, now);
      GivenLater(s0, s0.(open := s0.open + Loose(p, s0.files[id].fd)), s, r, name);
    }

    /** ngx_open_cached_file for a name in the tree. */
    method OpenKnown(id: Id, want: Wanted, os: Os, haveMemory: bool, slot: Id, junkClose: bool, junkDir: bool,
                     h: nat, now: int)
      returns (r: Reply)
      requires Valid(s) && Aged(s.files, s.queue, clock) && id in s.tree && id in s.files
      requires slot !in s.files && h !in s.handles && os.newFd !in s.open && os.errno != 0
      requires s.files[id].fd.Some? && s.files[id].uniq == os.uniq ==> !os.isDir
      modifies this
      ensures clock == old(clock).Tick(now) || clock == old(clock)
      ensures Valid(s) && Aged(s.files, s.queue, clock) && s.max == old(s.max)
      ensures GivenTo(old(s), s, r, old(s.files)[id].name)
      ensures haveMemory ==> Answers(r, Some(old(s.files)[id]), want, os, now)
      ensures haveMemory ==> Keeps(s, old(s.files)[id].name, want, os, Some(old(s.files)[id]), now)
    {
      var f := s.files[id];
      if Fresh(f, want, now) {
        r := OpenFresh(id, f, want, os, h, now);
      } else {
        r := OpenStale(id, f, want, os, haveMemory, slot, junkClose, junkDir, h, now);
      }
    }

    /** The entry f answers by itself. */
    method OpenFresh(id: Id, f: File, ghost want: Wanted, ghost os: Os, h: nat, now: int) returns (r: Reply)
      requires Valid(s) && Aged(s.files, s.queue, clock) && id in s.tree && id in s.files && h !in s.handles
      requires s.files[id] == f && Fresh(f, want, now)
      modifies this
      ensures Valid(s) && Aged(s.files, s.queue, clock) && clock == old(clock).Tick(now) && s.max == old(s.max)
      ensures GivenTo(old(s), s, r, f.name)
      ensures Answers(r, Some(f), want, os, now) && Keeps(s, f.name, want, os, Some(f), now)
    {
      Begin(id);
      r := Hit(id, h, now);
      HitAnswers(r, f, want, os, now, h);
    }

    /** The entry f is not good enough without asking the system. */
    method OpenStale(id: Id, f: File, want: Wanted, os: Os, haveMemory: bool, slot: Id, junkClose: bool, junkDir: bool,
                     h: nat, now: int)
      returns (r: Reply)
      requires Valid(s) && Aged(s.files, s.queue, clock) && id in s.tree && id in s.files
      requires s.files[id] == f && !Fresh(f, want, now)
      requires slot !in s.files && h !in s.handles && os.newFd !in s.open && os.errno != 0
      requires f.fd.Some? && f.uniq == os.uniq ==> !os.isDir
      modifies this
      ensures clock == old(clock).Tick(now) || clock == old(clock)
      ensures Valid(s) && Aged(s.files, s.queue, clock) && s.max == old(s.max)
      ensures GivenTo(old(s), s, r, f.name)
      ensures haveMemory ==> Answers(r, Some(f), want, os, now) && Keeps(s, f.name, want, os, Some(f), now)
    {
      ghost var s0 := s;
      Begin(id);
      r := AskAgain(id, f, want, os, haveMemory, slot, junkClose, junkDir, h, now, s0);
    }

    /** ... its use has been counted. */
    method AskAgain(id: Id, f: File, want: Wanted, os: Os, haveMemory: bool, slot: Id, junkClose: bool, junkDir: bool,
                    h: nat, now: int, ghost s0: State)
      returns (r: Reply)
      requires Inv(s, {id}, {}) && s.current <= s.max && s.max >= 1 && Aged(s.files, s.queue, clock)
      requires id in s.files && s.files[id] == Counted(f) && CachedOk(f) && !Fresh(f, want, now)
      requires f.fd.Some? ==> f.fd.value in s.open
      requires slot !in s.files && h !in s.handles && os.newFd !in s.open && os.errno != 0
      requires f.fd.Some? && f.uniq == os.uniq ==> !os.isDir
      requires s.handles == s0.handles
      modifies this
      ensures clock == old(clock).Tick(now) || clock == old(clock)
      ensures Valid(s) && Aged(s.files, s.queue, clock) && s.max == old(s.max)
      ensures GivenTo(s0, s, r, f.name)
      ensures haveMemory ==> Answers(r, Some(f), want, os, now) && Keeps(s, f.name, want, os, Some(f), now)
    {
      ghost var before := s;
      var p := ProbeFor(f, want, os);
      ProbeFits(f, want, os, s.open);
      r := Recheck(id, f.name, p, want, haveMemory, slot, junkClose, junkDir, h, now);
      GivenLater(s0, before, s, r, f.name);
      ProbeAnswers(r, f, want, os, now, h, p);
    }

    /** The entry that was looked up: `uses++` and out of the queue. */
    method Begin(id: Id)
      requires Inv(s, {}, {}) && Aged(s.files, s.queue, clock) && id in s.tree && id in s.files
      modifies this`s
      ensures Inv(s, {id}, {}) && Aged(s.files, s.queue, clock)
      ensures s.handles == old(s.handles) && s.open == old(s.open) && s.current == old(s.current) && s.max == old(s.max)
      ensures id in s.files && s.files[id] == Counted(old(s.files)[id])
      ensures forall x | x in s.files :: x in old(s.files)
      ensures CachedOk(old(s.files)[id]) && (s.files[id].fd.Some? ==> s.files[id].fd.value in s.open)
    {
      KnownEntry(s, id);
      UsesKeeps(s, id);
      UsesAged(s, id, clock);
      s := Used(s, id);
      UnqueueKeeps(s, id, {});
      AgedWithout(s.files, s.queue, clock, id);
      s := Unqueue(s, id);
    }

    /** ngx_open_cached_file for a name that is not in the tree. */
    method OpenUnknown(name: Name, want: Wanted, os: Os, haveMemory: bool, slot: Id, junkClose: bool, junkDir: bool,
                       h: nat, now: int)
      returns (r: Reply)
      requires Valid(s) && Aged(s.files, s.queue, clock)
      requires slot !in s.files && h !in s.handles && os.newFd !in s.open && os.errno != 0
      requires forall x | x in s.tree :: s.files[x].name != name
      modifies this
      ensures clock == old(clock).Tick(now) || clock == old(clock)
      ensures Valid(s) && Aged(s.files, s.queue, clock) && s.max == old(s.max)
      ensures GivenTo(old(s), s, r, name)
      ensures haveMemory ==> Answers(r, None, want, os, now) && Keeps(s, name, want, os, None, now)
    {
      ghost var s0 := s;
      var p := OpenAndStat(None, want.uniq, false, os);
      if !p.ok && (p.err == 0 || !want.errors) {
        return Error(p.err);
      }
      LooseOpened(s, {}, Loose(p, None));
      s := s.(open := s.open + Loose(p, None));
      ghost var before := s;
      r := CreateEntry(name, p, haveMemory, slot, junkClose, junkDir, h, now);
      GivenLater(s0, before, s, r, name);
    }

    /** ngx_open_cached_file with a cache.  The file system is stable during the call, an equal uniq means
      * the same kind of file, and an error number is not zero. */
    method Open(name: Name, want: Wanted, os: Os, haveMemory: bool, slot: Id, junkClose: bool, junkDir: bool,
                h: nat, now: int)
      returns (r: Reply)
      requires Valid(s) && Aged(s.files, s.queue, clock)
      requires slot !in s.files && h !in s.handles && os.newFd !in s.open && os.errno != 0
      requires forall id | id in s.tree && id in s.files && s.files[id].name == name ::
        s.files[id].fd.Some? && s.files[id].uniq == os.uniq ==> !os.isDir
      modifies this
      ensures clock == old(clock).Tick(now) || clock == old(clock)
      ensures Valid(s) && Aged(s.files, s.queue, clock) && s.max == old(s.max)
      ensures GivenTo(old(s), s, r, name)
      ensures haveMemory ==> exists f ::
        Lookup(old(s), name, f) && Answers(r, f, want, os, now) && Keeps(s, name, want, os, f, now)
    {
      ghost var found: Option<File> := None;
      TreeIsKnown(s);
      if id :| id in s.tree && id in s.files && s.files[id].name == name {
        found := Some(s.files[id]);
        assert Lookup(s, name, found);
        r := OpenKnown(id, want, os, haveMemory, slot, junkClose, junkDir, h, now);
      } else {
        assert Lookup(s, name, found);
        r := OpenUnknown(name, want, os, haveMemory, slot, junkClose, junkDir, h, now);
      }
    }

    /** An entry becomes the most recently accessed one. */
    method MoveToHead(id: Id, now: int)
      requires Inv(s, {}, {}) && id in s.tree && id in s.files && Aged(s.files, s.queue, clock)
      modifies this
      ensures Inv(s, {}, {}) && Aged(s.files, s.queue, clock) && clock == old(clock).Tick(now)
      ensures s.handles == old(s.handles) && s.max == old(s.max) && s.current == old(s.current) && s.tree == old(s.tree)
      ensures s == Enqueue(Unqueue(old(s), id), id, now)
    {
      UnqueueKeeps(s, id, {});
      AgedWithout(s.files, s.queue, clock, id);
      s := Unqueue(s, id);
      Insert(id, now, {});
    }

    /** Label `found`. */
    method Insert(id: Id, now: int, ghost loose: set<Fd>)
      requires Inv(s, {id}, loose) && id in s.files && Aged(s.files, s.queue, clock)
      modifies this
      ensures Inv(s, {}, loose) && Aged(s.files, s.queue, clock) && clock == old(clock).Tick(now)
      ensures s.handles == old(s.handles) && s.max == old(s.max) && s.current == old(s.current) && s.tree == old(s.tree)
      ensures s.files == old(s.files)[id := old(s.files)[id].(accessed := now)]
      ensures s == Enqueue(old(s), id, now)
    {
      EnqueueKeeps(s, id, now, loose);
      AgedInsert(s.files, s.queue, clock, id, s.files[id].(accessed := now));
      s := Enqueue(s, id, now);
      clock := clock.Tick(now);
    }
  }

  // ---------------------------------------------------------------- what the cache remembers of a call

  /** The most recently accessed entry has that name, so many uses, and was created then. */
  ghost predicate Entered(s: State, name: Name, uses: nat, created: int, now: int) {
    && s.queue != [] && AtHead(s, s.queue[0], now)
    && var f := s.files[s.queue[0]]; f.name == name && f.uses == uses && f.created == created
  }

  /** ... and what the system said about it. */
  ghost predicate Holds(s: State, p: Probe) {
    && s.queue != [] && s.queue[0] in s.files
    && var f := s.files[s.queue[0]];
    && f.err == p.err && (p.err == 0 ==> f.fd == p.fd && f.isDir == p.isDir && f.uniq == p.uniq)
  }

  ghost predicate SameFile(s: State, g: File) {
    && s.queue != [] && s.queue[0] in s.files
    && var f := s.files[s.queue[0]]; f.err == g.err && f.fd == g.fd && f.isDir == g.isDir && f.uniq == g.uniq
  }

  ghost predicate NotCached(s: State, name: Name) {
    forall id | id in s.tree && id in s.files :: s.files[id].name != name
  }

  /** The entry takes over what was found; one that is in use and has changed is left to its users. */
  predicate Stays(f: File, p: Probe) {
    f.isDir || f.err != 0 || f.count == 0 || (p.err == 0 && !p.isDir && p.uniq == f.uniq)
  }

  /** The cache remembers what the system said, but for errors that are not to be cached. */
  ghost predicate Remembered(s: State, name: Name, p: Probe, want: Wanted, f: Option<File>, now: int) {
    if !p.ok && (p.err == 0 || !want.errors) then NotCached(s, name)
    else Entered(s, name, if f.Some? && Stays(f.value, p) then f.value.uses else 1, now, now) && Holds(s, p)
  }

  /** A fresh entry is kept as it is, and counts one more use; otherwise the cache remembers what the system said. */
  ghost predicate Keeps(s: State, name: Name, want: Wanted, os: Os, f: Option<File>, now: int) {
    if f.Some? && Fresh(f.value, want, now) then
      Entered(s, name, f.value.uses + 1, f.value.created, now) && SameFile(s, f.value)
    else if f.None? then Remembered(s, name, OpenAndStat(None, want.uniq, false, os), want, None, now)
    else Remembered(s, name, ProbeFor(f.value, want, os), want, Some(Counted(f.value)), now)
  }

  /** No other entry of the tree has the name of one that leaves it. */
  lemma NameGoes(s: State, id: Id)
    requires Inv(s, {id}, {}) && id in s.files && id in s.tree && s.current > 0
    ensures NotCached(Evict(s, id), s.files[id].name)
  {
    EvictFrame(s, id);
  }

  /** A request lets go of an entry of the tree: it becomes the most recently accessed one, and without other users it is
    * closed unless it was used often enough. */
  function PutBack(s: State, h: nat, minUses: nat, now: int): State
    requires h in s.handles && s.handles[h].file in s.files && s.files[s.handles[h].file].count > 0
  {
    var id := s.handles[h].file;
    var t := Enqueue(Unqueue(Take(s, h), id), id, now);
    if t.files[id].uses >= minUses || t.files[id].count > 0 then t else CloseFd(t, id)
  }

  lemma PutBackIs(s: State, h: nat, minUses: nat, now: int)
    requires Inv(s, {}, {}) && h in s.handles && s.handles[h].file in s.tree
    requires s.handles[h].file in s.files && s.files[s.handles[h].file].count > 0
    ensures var t, id, f := PutBack(s, h, minUses, now), s.handles[h].file, s.files[s.handles[h].file];
      && t.handles == s.handles - {h} && t.max == s.max && t.open <= s.open && AtHead(t, id, now)
      && t.files[id].fd == (if f.count > 1 || f.uses >= minUses then f.fd else None)
      && (f.fd.Some? && f.count <= 1 && f.uses < minUses ==> f.fd.value !in t.open)
  {
  }

  /** The entry is the most recently accessed one. */
  ghost predicate AtHead(s: State, id: Id, now: int) {
    id in s.files && id in s.tree && s.queue != [] && s.queue[0] == id && s.files[id].accessed == now
  }

  /** One of the entry's users lets go; does the descriptor stay open? */
  predicate StaysOpen(files: map<Id, File>, id: Id, minUses: nat) {
    id in files && (files[id].count > 1 || (!files[id].close && files[id].uses >= minUses))
  }

  /** The entry was just accessed, so it is not among the idle ones that go. */
  lemma HeadStays(s: State, s': State, d: nat, id: Id, now: int, inactive: int)
    requires Expired(s, s', d, 1, now, inactive) && inactive >= 0 && AtHead(s, id, now) && Inv(s', {}, {})
    ensures id in s'.files && s'.files[id] == s.files[id]
  {
    assert d < |s.queue|;
    assert s'.queue[0] == id && id in s'.queue;
  }

  /** An owner makes a descriptor an open one. */
  lemma OwnedIsOpen(s: State, id: Id)
    requires Inv(s, {}, {}) && id in s.files && s.files[id].fd.Some?
    ensures s.files[id].fd.value in s.open
  {
  }

  /** A detached entry outlives the release exactly if it has another user. */
  lemma DetachedStays(s0: State, s1: State, s2: State, h: nat, now: int, inactive: int, d: nat)
    requires Inv(s0, {}, {}) && Inv(s2, {}, {}) && h in s0.handles && s0.handles[h].file in s0.files
    requires Expired(s1, s2, d, 1, now, inactive)
    requires var id := s0.handles[h].file; var f := s0.files[id];
      id !in s0.tree && f.count > 0 && s1 == if f.count > 1 then Take(s0, h) else Free(s0, h)
    ensures s0.handles[h].fd in s2.open <==> s0.files[s0.handles[h].file].count > 1
  {
    var id := s0.handles[h].file;
    assert s0.files[id].fd == Some(s0.handles[h].fd);
    if s0.files[id].count > 1 {
      assert id in s2.files && s2.files[id].fd == Some(s0.handles[h].fd);
      OwnedIsOpen(s2, id);
    }
  }

  lemma ReleasedStays(s0: State, s1: State, s2: State, h: nat, minUses: nat, now: int, inactive: int, d: nat)
    requires Inv(s0, {}, {}) && Inv(s2, {}, {}) && h in s0.handles && s0.handles[h].file in s0.files && inactive >= 0
    requires Expired(s1, s2, d, 1, now, inactive) && s0.files[s0.handles[h].file].count > 0
    requires var id := s0.handles[h].file; var f := s0.files[id];
      if f.close then id !in s0.tree && s1 == if f.count > 1 then Take(s0, h) else Free(s0, h)
      else AtHead(s1, id, now) && s1.files[id].fd == (if f.count > 1 || f.uses >= minUses then f.fd else None)
           && (f.fd.Some? && f.count <= 1 && f.uses < minUses ==> f.fd.value !in s1.open)
    ensures s0.handles[h].fd in s2.open <==> StaysOpen(s0.files, s0.handles[h].file, minUses)
  {
    var id := s0.handles[h].file;
    assert s0.files[id].fd == Some(s0.handles[h].fd);
    if s0.files[id].close {
      DetachedStays(s0, s1, s2, h, now, inactive, d);
    } else {
      HeadStays(s1, s2, d, id, now, inactive);
      if StaysOpen(s0.files, id, minUses) {
        OwnedIsOpen(s2, id);
      }
    }
  }

  /** A handle points at a living entry; it is detached exactly when it is marked for closing. */
  lemma HandledFile(s: State, h: nat)
    requires Inv(s, {}, {}) && h in s.handles
    ensures var id := s.handles[h].file;
      id in s.files && s.files[id].count > 0 && (s.files[id].close <==> id !in s.tree)
  {
    assert h in HandlesOf(s.handles, s.handles[h].file);
  }

  lemma TakeAged(s: State, h: nat, clock: Clock, now: int)
    requires h in s.handles && s.handles[h].file in s.files && s.files[s.handles[h].file].count > 0
    requires Aged(s.files, s.queue, clock)
    ensures Aged(Take(s, h).files, Take(s, h).queue, clock) && Aged(Take(s, h).files, Take(s, h).queue, clock.Tick(now))
  {
    assert forall i | 0 <= i < |s.queue| :: s.queue[i] in s.queue;
    AgedElsewhere(s.files, Take(s, h).files, s.queue, clock);
  }

  lemma CloseFdAged(s: State, id: Id, clock: Clock)
    requires id in s.files && Aged(s.files, s.queue, clock)
    ensures Aged(CloseFd(s, id).files, CloseFd(s, id).queue, clock)
    ensures CloseFd(s, id).handles == s.handles && CloseFd(s, id).max == s.max && CloseFd(s, id).current == s.current
    ensures CloseFd(s, id).tree == s.tree
  {
    assert forall i | 0 <= i < |s.queue| :: s.queue[i] in s.queue;
    AgedElsewhere(s.files, CloseFd(s, id).files, s.queue, clock);
  }

  lemma FreeAged(s: State, h: nat, clock: Clock, now: int)
    requires h in s.handles && Aged(s.files, s.queue, clock) && Inv(s, {}, {})
    requires s.handles[h].file !in s.tree
    ensures Aged(Free(s, h).files, s.queue, clock.Tick(now))
  {
    assert forall id | id in s.queue :: id in s.tree;
    AgedElsewhere(s.files, Free(s, h).files, s.queue, clock);
  }

  /** The probe fits an entry that has no descriptor, or kept the one it has. */
  ghost predicate Storable(f: File, p: Probe) {
    && (p.ok || p.err != 0)
    && (p.err != 0 ==> p.fd.None?) && (p.err == 0 ==> (p.isDir <==> p.fd.None?))
    && (p.fd == f.fd || f.fd.None?)
    && (p.fd.None? ==> f.count == 0)
  }

  function ReplyTo(p: Probe, h: nat): Reply {
    if p.err != 0 || (!p.isDir && p.fd.None?) then Error(p.err) else if p.isDir then Directory else Granted(h, p.fd.value)
  }

  /** The only change to the handles is the one given out, on an entry of that name. */
  ghost predicate GivenTo(s0: State, s: State, r: Reply, name: Name) {
    if r.Granted? then
      && r.handle !in s0.handles && r.handle in s.handles && s.handles[r.handle].fd == r.fd
      && s.handles == s0.handles[r.handle := s.handles[r.handle]]
      && s.handles[r.handle].file in s.files && s.files[s.handles[r.handle].file].name == name
    else s.handles == s0.handles
  }

  /** The entry after label `update`: an error leaves kind and close flag as they were. */
  function Updated(f: File, p: Probe, close: bool, isDir: bool, now: int): File {
    if p.err == 0 then f.(fd := p.fd, err := 0, isDir := p.isDir, uniq := p.uniq, close := false, created := now)
    else f.(fd := p.fd, err := p.err, isDir := isDir, close := close, created := now)
  }

  function Stored(s: State, id: Id, p: Probe, close: bool, isDir: bool, h: nat, now: int): State
    requires id in s.files
  {
    var s' := s.(files := s.files[id := Updated(s.files[id], p, close, isDir, now)]);
    if p.err == 0 && !p.isDir && p.fd.Some? then Give(s', id, h) else s'
  }

  lemma UpdatedKeeps(s: State, id: Id, p: Probe, close: bool, isDir: bool, now: int)
    requires id in s.files && Inv(s, {id}, Loose(p, s.files[id].fd)) && Storable(s.files[id], p)
    ensures Inv(s.(files := s.files[id := Updated(s.files[id], p, close, isDir, now)]), {id}, {})
  {
    var f, loose := Updated(s.files[id], p, close, isDir, now), Loose(p, s.files[id].fd);
    assert id in s.tree && CachedOk(s.files[id]);
    FilesSame(s.files, s.tree, id, f);
    HandlesSame(s.files, s.handles, id, f);
    if p.fd == s.files[id].fd {
      DescriptorsSame(s.files, s.open, {}, id, f);
    } else {
      DescriptorTaken(s.files, s.open, loose, id, f);
      assert loose - {p.fd.value} == {};
    }
  }

  lemma StoredKeeps(s: State, id: Id, p: Probe, close: bool, isDir: bool, h: nat, now: int)
    requires id in s.files && Inv(s, {id}, Loose(p, s.files[id].fd)) && Storable(s.files[id], p) && h !in s.handles
    ensures Inv(Stored(s, id, p, close, isDir, h, now), {id}, {})
  {
    UpdatedKeeps(s, id, p, close, isDir, now);
    if p.err == 0 && !p.isDir && p.fd.Some? {
      var s' := s.(files := s.files[id := Updated(s.files[id], p, close, isDir, now)]);
      assert id in s'.tree;
      GiveKeeps(s', id, h, {id}, {});
    }
  }

  lemma StoredFrame(s: State, id: Id, p: Probe, close: bool, isDir: bool, h: nat, now: int)
    requires id in s.files && h !in s.handles && Storable(s.files[id], p)
    ensures var s' := Stored(s, id, p, close, isDir, h, now);
      && s'.tree == s.tree && s'.queue == s.queue && s'.current == s.current && s'.max == s.max
      && id in s'.files && s'.files[id].name == s.files[id].name
      && s'.handles == (if ReplyTo(p, h).Granted? then s.handles[h := Handle(id, p.fd.value)] else s.handles)
  {
  }

  lemma StoredAged(s: State, id: Id, p: Probe, close: bool, isDir: bool, h: nat, now: int, clock: Clock)
    requires id in s.files && id !in s.queue && Aged(s.files, s.queue, clock)
    ensures Aged(Stored(s, id, p, close, isDir, h, now).files, s.queue, clock)
  {
    assert forall i | 0 <= i < |s.queue| :: s.queue[i] in s.queue;
    AgedElsewhere(s.files, Stored(s, id, p, close, isDir, h, now).files, s.queue, clock);
  }

  lemma EvictAged(s: State, id: Id, clock: Clock)
    requires id in s.files && s.current > 0 && id !in s.queue && Aged(s.files, s.queue, clock)
    ensures Aged(Evict(s, id).files, s.queue, clock)
  {
    EvictFrame(s, id);
    assert forall i | 0 <= i < |s.queue| :: s.queue[i] in s.queue;
    AgedElsewhere(s.files, Evict(s, id).files, s.queue, clock);
  }

  lemma AgedCreate(s: State, id: Id, name: Name, clock: Clock)
    requires id !in s.files && Aged(s.files, s.queue, clock)
    ensures Aged(Create(s, id, name).files, s.queue, clock)
  {
    assert forall i | 0 <= i < |s.queue| :: s.queue[i] in s.queue;
    AgedElsewhere(s.files, Create(s, id, name).files, s.queue, clock);
  }

  /** A forced expiry of a full cache makes room for one entry. */
  lemma RoomMade(s0: State, s: State, d: nat, now: int, inactive: int)
    requires Expired(s0, s, d, 0, now, inactive) && s0.current >= s0.max >= 1 && s0.current <= s0.max
    requires s0.current == |s0.queue|
    requires d < 3 ==> s.queue == [] || (d > 0 && StillActive(s, now, inactive))
    ensures s.current < s.max && s.max == s0.max && s.handles == s0.handles
    ensures forall x | x in s.tree :: x in s0.tree && x in s.files && s.files[x].name == s0.files[x].name
    ensures forall x | x in s.files :: x in s0.files
  {
  }

  /** A loose descriptor can be closed. */
  lemma LooseClosed(s: State, fd: Fd)
    requires Inv(s, {}, {fd})
    ensures fd in s.open && Inv(s.(open := s.open - {fd}), {}, {})
  {
    assert fd in {fd};
  }

  /** Opening a file yields a loose descriptor. */
  lemma LooseOpened(s: State, out: set<Id>, loose: set<Fd>)
    requires Inv(s, out, {}) && loose !! s.open
    ensures Inv(s.(open := s.open + loose), out, loose)
  {
  }

  lemma GivenLater(s0: State, before: State, s: State, r: Reply, name: Name)
    requires GivenTo(before, s, r, name) && before.handles == s0.handles
    ensures GivenTo(s0, s, r, name)
  {
  }

  /** What OpenAndStat guarantees for an entry of the tree when an equal uniq means the same kind of file. */
  ghost predicate Probed(f: File, p: Probe) {
    && (p.ok || p.err != 0)
    && (p.err != 0 ==> p.fd.None?) && (p.err == 0 ==> (p.isDir <==> p.fd.None?))
    && (f.fd.Some? && p.err == 0 && p.uniq == f.uniq ==> p.fd == f.fd)
    && (f.fd.Some? && !(p.err == 0 && p.uniq == f.uniq) ==> p.fd != f.fd)
  }

  lemma LooseDiffers(p: Probe, f: File)
    requires f.fd.Some? ==> p.fd != f.fd || p.fd.None?
    ensures Loose(p, f.fd) == Loose(p, None)
  {
  }

  lemma GiveAged(s: State, id: Id, h: nat, clock: Clock)
    requires id in s.files && s.files[id].fd.Some? && id !in s.queue && Aged(s.files, s.queue, clock)
    ensures Aged(Give(s, id, h).files, s.queue, clock)
  {
    assert forall i | 0 <= i < |s.queue| :: s.queue[i] in s.queue;
    AgedElsewhere(s.files, Give(s, id, h).files, s.queue, clock);
  }

  lemma DetachAged(s: State, id: Id, clock: Clock)
    requires id in s.files && s.current > 0 && Aged(s.files, s.queue, clock)
    ensures Aged(Detach(s, id).files, s.queue, clock)
  {
    assert forall i | 0 <= i < |s.queue| :: s.queue[i] in s.queue;
    AgedElsewhere(s.files, Detach(s, id).files, s.queue, clock);
  }

  /** The other entries of the tree have other names. */
  lemma OthersDiffer(s: State, id: Id)
    requires TreeOk(s.files, s.tree) && id in s.tree && s.current > 0
    ensures forall x | x in Detach(s, id).tree :: x in s.files && Detach(s, id).files[x].name != s.files[id].name
  {
  }

  function Used(s: State, id: Id): State
    requires id in s.files
  {
    s.(files := s.files[id := Counted(s.files[id])])
  }

  lemma UsesKeeps(s: State, id: Id)
    requires Inv(s, {}, {}) && id in s.tree && id in s.files
    ensures Inv(Used(s, id), {}, {})
  {
    var f := Counted(s.files[id]);
    UsedIsCached(s, id, f);
    UsedIs(s, id, f);
    EntryChanges(s, id, f, Used(s, id));
  }

  lemma UsedIs(s: State, id: Id, f: File)
    requires id in s.files && f == Counted(s.files[id])
    ensures Used(s, id) == s.(files := s.files[id := f])
  {
  }

  lemma UsedIsCached(s: State, id: Id, f: File)
    requires FilesOk(s.files, s.tree) && id in s.tree && id in s.files && f == Counted(s.files[id])
    ensures CachedOk(f) && f.name == s.files[id].name && f.count == s.files[id].count && f.fd == s.files[id].fd
  {
    CachedEntry(s, id);
  }

  /** An entry of the tree may change anything but its name, its users and its descriptor. */
  lemma EntryChanges(s: State, id: Id, f: File, t: State)
    requires Inv(s, {}, {}) && id in s.tree && id in s.files && CachedOk(f)
    requires f.name == s.files[id].name && f.count == s.files[id].count && f.fd == s.files[id].fd
    requires t == s.(files := s.files[id := f])
    ensures Inv(t, {}, {})
  {
    FilesSame(s.files, s.tree, id, f);
    HandlesSame(s.files, s.handles, id, f);
    DescriptorsSame(s.files, s.open, {}, id, f);
  }

  lemma UsesAged(s: State, id: Id, clock: Clock)
    requires id in s.files && Aged(s.files, s.queue, clock)
    ensures Aged(Used(s, id).files, s.queue, clock)
  {
    assert forall i | 0 <= i < |s.queue| :: s.queue[i] in s.queue;
    AgedElsewhere(s.files, Used(s, id).files, s.queue, clock);
  }

  lemma HitAnswers(r: Reply, f: File, want: Wanted, os: Os, now: int, h: nat)
    requires Fresh(f, want, now) && (f.err == 0 && !f.isDir ==> f.fd.Some?)
    requires r == if f.err != 0 then Error(f.err) else if f.isDir then Directory else Granted(h, f.fd.value)
    ensures Answers(r, Some(f), want, os, now)
  {
  }

  lemma ProbeAnswers(r: Reply, f: File, want: Wanted, os: Os, now: int, h: nat, p: Probe)
    requires !Fresh(f, want, now) && p == ProbeFor(f, want, os) && (f.fd.Some? && f.uniq == os.uniq ==> !os.isDir)
    ensures r == ReplyTo(p, h) ==> Answers(r, Some(f), want, os, now)
  {
  }

  lemma KnownEntry(s: State, id: Id)
    requires Inv(s, {}, {}) && id in s.tree && id in s.files
    ensures CachedOk(s.files[id]) && (s.files[id].fd.Some? ==> s.files[id].fd.value in s.open)
  {
    CachedEntry(s, id);
  }

  lemma ProbeFits(f: File, want: Wanted, os: Os, open: set<Fd>)
    requires CachedOk(f) && os.newFd !in open && os.errno != 0 && (f.fd.Some? ==> f.fd.value in open)
    requires f.fd.Some? && f.uniq == os.uniq ==> !os.isDir
    ensures var p := ProbeFor(f, want, os);
      && Loose(p, f.fd) !! open && (!p.ok ==> p.fd.None? && !p.isDir)
      && (p.ok || p.err != 0 ==> Probed(f, p))
  {
  }

  lemma CachedEntry(s: State, id: Id)
    requires FilesOk(s.files, s.tree) && id in s.tree && id in s.files
    ensures CachedOk(s.files[id])
  {
  }

  lemma TreeIsKnown(s: State)
    requires Inv(s, {}, {})
    ensures forall id | id in s.tree :: id in s.files
  {
  }

  /** The entry of that name, if the tree has one. */
  ghost predicate Lookup(s: State, name: Name, f: Option<File>) {
    match f
    case None => forall id | id in s.tree && id in s.files :: s.files[id].name != name
    case Some(file) => exists id :: id in s.tree && id in s.files && s.files[id] == file && file.name == name
  }

  /** A lookup has one result. */
  lemma LookupIsUnique(s: State, name: Name, f: Option<File>, g: Option<File>)
    requires TreeOk(s.files, s.tree) && Lookup(s, name, f) && Lookup(s, name, g)
    ensures f == g
  {
  }

  /** What a reply says about a file. */
  ghost predicate Says(r: Reply, p: Probe) {
    if p.err != 0 then r == Error(p.err) else if p.isDir then r == Directory else r.Granted? && Some(r.fd) == p.fd
  }

  /** A call that asked the system is followed by calls that need not: for less than `valid` seconds each of them answers
    * what the system said then, whatever it would say now, and from then on what it says now. */
  lemma RecentIsAnswered(s: State, name: Name, p: Probe, want: Wanted, f: Option<File>, now: int,
                         g: Option<File>, r: Reply, want': Wanted, os': Os, now': int)
    requires Valid(s) && Remembered(s, name, p, want, f, now)
    requires (p.ok || (p.err != 0 && want.errors)) && (p.ok ==> p.err == 0 && (p.isDir <==> p.fd.None?))
    requires Lookup(s, name, g) && Answers(r, g, want', os', now') && want'.uniq == 0
    ensures now' < now + want'.valid ==> Says(r, p)
    ensures now' >= now + want'.valid ==>
      g.Some? && var p' := ProbeFor(g.value, want', os'); if p'.ok then Says(r, p') else r == Error(p'.err)
  {
    HeadIsFound(s, name, g);
  }

  lemma HeadIsFound(s: State, name: Name, g: Option<File>)
    requires Valid(s) && s.queue != [] && s.queue[0] in s.files && s.files[s.queue[0]].name == name && Lookup(s, name, g)
    ensures g == Some(s.files[s.queue[0]])
  {
    assert s.queue[0] in s.tree;
    LookupIsUnique(s, name, g, Some(s.files[s.queue[0]]));
  }
}
