// The server's table of open files: src/server/file_manager.{h,cpp}.

module FileTable {
  import opened Structures
  import Disk

  datatype FileInfo = FileInfo(
    fd: int, totalSize: nat, fileName: Str, filePath: Str, fileToken: Str, targets: seq<ChainTarget>)

  type Table = map<Str, FileInfo>

  /******* The locked sections, as functions on the table *******/

  function Insert(t: Table, info: FileInfo): (Table, int) {
    if info.fileToken in t then (t, -EEXIST) else (t[info.fileToken := info], 0)
  }

  function Erase(t: Table, token: Str): (Table, int) {
    if token in t then (t - {token}, 0) else (t, -ENOENT)
  }

  function Link(t: Table, token: Str, targets: seq<ChainTarget>): (Table, int) {
    if token in t then (t[token := t[token].(targets := targets)], 0) else (t, -1)
  }

  /******* create_file up to the lock *******/

  // What the operating system answers while a file is being created.
  datatype OsAnswer =
    | NoDirectory
    | NoOpen(errno: int)
    | Opened(fd: int, truncated: bool, errno: int)

  datatype OpenResult = Refused(ret: int) | Holding(fd: int)

  // The kernel hands out a non-negative descriptor that is not in use.
  predicate OsMay(open: set<int>, os: OsAnswer) {
    os.Opened? ==> os.fd >= 0 && os.fd !in open
  }

  predicate ChunkSizeOk(chunkSize: nat) { chunkSize != 0 && chunkSize % Disk.BASE == 0 }

  // Checks, create_directories and create_fd. Descriptor 0 counts as a failed
  // open although the kernel opened it: it is neither truncated nor closed.
  function OpenPhase(open: set<int>, chunkSize: nat, os: OsAnswer): (set<int>, OpenResult) {
    if !ChunkSizeOk(chunkSize) then (open, Refused(-EINVAL))
    else match os
      case NoDirectory => (open, Refused(-ENOTDIR))
      case NoOpen(errno) => (open, Refused(-errno))
      case Opened(fd, truncated, errno) =>
        if fd > 0 then
          if truncated then (open + {fd}, Holding(fd)) else (open, Refused(-errno))
        else (open + {fd}, Refused(-errno))
  }

  // create_file returns 0 without having made an entry exactly when its open or
  // ftruncate counts as failed while errno is 0. An open that fails sets errno, so
  // what is left is descriptor 0.
  lemma ZeroWithoutEntry(open: set<int>, chunkSize: nat, os: OsAnswer)
    requires OsMay(open, os)
    ensures OpenPhase(open, chunkSize, os).1 == Refused(0) <==>
            ChunkSizeOk(chunkSize) && !os.NoDirectory? && os.errno == 0 && (os.Opened? && os.truncated ==> os.fd == 0)
  {
  }

  /******* The object, one call at a time *******/

  class FileManager {
    var fmap: Table
    var open: set<int>            // the kernel's view: descriptors of this process that are open
    const token: Str -> Str       // get_token: any function of the path
    const cwd: Str                // get_full_path prepends it

    // Between calls: every entry owns an open descriptor, and its key is the token
    // of its path.
    ghost predicate Valid()
      reads this
    {
      && (forall k :: k in fmap ==> fmap[k].fd > 0 && fmap[k].fd in open)
      && (forall k :: k in fmap ==> k == fmap[k].fileToken == token(fmap[k].filePath))
      && (forall k, l :: k in fmap && l in fmap && k != l ==> fmap[k].fd != fmap[l].fd)
    }

    constructor (token: Str -> Str, cwd: Str)
      ensures Valid() && fmap == map[] && open == {} && this.token == token && this.cwd == cwd
    {
      fmap, open := map[], {};
      this.token, this.cwd := token, cwd;
    }

    method CreateFd(os: OsAnswer) returns (fd: int)
      requires os.Opened? && OsMay(open, os)
      modifies `open
      ensures (open, if fd < 0 then Refused(-os.errno) else Holding(fd)) == OpenPhase(old(open), Disk.BASE, os)
    {
      fd := os.fd;
      open := open + {fd};
      if fd > 0 {
        if os.truncated { return; }
        open := open - {fd};
      }
      fd := -1;
    }

    method CreateFile(name: Str, size: nat, chunkSize: nat, os: OsAnswer) returns (ret: int, fileToken: Str)
      requires Valid() && OsMay(open, os)
      modifies this
      ensures Valid()
      ensures var path := cwd + name;
              match OpenPhase(old(open), chunkSize, os)
              case (o, Refused(e)) => ret == e && open == o && fmap == old(fmap)
              case (o, Holding(fd)) =>
                var info := FileInfo(fd, size, name, path, token(path), []);
                (fmap, ret) == Insert(old(fmap), info) && open == if ret == 0 then o else old(open)
      ensures ret == 0 && fmap != old(fmap) ==> fileToken == token(cwd + name)
    {
      var path := cwd + name;
      var tok := token(path);
      var fd := -1;
      fileToken := [];

      if chunkSize == 0 || chunkSize % Disk.BASE != 0 { return -EINVAL, fileToken; }
      if os.NoDirectory? { return -ENOTDIR, fileToken; }
      if os.NoOpen? { return -os.errno, fileToken; }
      fd := CreateFd(os);
      if fd < 0 { return -os.errno, fileToken; }

      if tok in fmap {
        open := open - {fd};
        return -EEXIST, fileToken;
      }
      fileToken := tok;
      fmap := fmap[tok := FileInfo(fd, size, name, path, tok, [])];
      ret := 0;
    }

    method CloseFile(fileToken: Str) returns (ret: int)
      requires Valid()
      modifies this
      ensures Valid()
      ensures (fmap, ret) == Erase(old(fmap), fileToken)
      ensures open == if ret == 0 then old(open) - {old(fmap)[fileToken].fd} else old(open)
    {
      if fileToken !in fmap { return -ENOENT; }
      var info := fmap[fileToken];
      fmap := fmap - {fileToken};
      open := open - {info.fd};
      ret := 0;
    }

    method SetChainTargets(fileToken: Str, targets: seq<ChainTarget>) returns (ret: int)
      requires Valid()
      modifies `fmap
      ensures Valid()
      ensures (fmap, ret) == Link(old(fmap), fileToken, targets)
      ensures ret == if fileToken in old(fmap) then 0 else -1
    {
      if fileToken !in fmap { return -1; }
      fmap := fmap[fileToken := fmap[fileToken].(targets := targets)];
      ret := 0;
    }

    // What the handler of a close without waiting goes by: the close that it does
    // after its reply would return 0 if it were done now.
    method HasFile(fileToken: Str) returns (found: bool)
      ensures found <==> Erase(fmap, fileToken).1 == 0
    {
      found := fileToken in fmap;
    }

    // What handle_send_file goes by: the descriptor is negative exactly when there is
    // no entry; otherwise it is open, it is no other entry's, and closing the entry
    // closes it.
    method GetFd(fileToken: Str) returns (fd: int, targets: seq<ChainTarget>)
      requires Valid()
      ensures fd < 0 <==> Erase(fmap, fileToken).1 != 0
      ensures fd >= 0 ==> fd in open && fd in MapFds(fmap) && fd !in MapFds(Erase(fmap, fileToken).0)
      ensures fd >= 0 ==> Link(fmap, fileToken, targets).0 == fmap
    {
      targets := [];
      if fileToken !in fmap { return -1, targets; }
      targets := fmap[fileToken].targets;
      fd := fmap[fileToken].fd;
      assert fmap[fileToken := fmap[fileToken].(targets := targets)] == fmap;
    }

    // The destructor closes what the table still holds.
    method Destroy()
      requires Valid()
      modifies this
      ensures Valid() && fmap == map[] && open == old(open) - MapFds(old(fmap))
    {
      var left := fmap;
      while left != map[]
        invariant left.Keys <= fmap.Keys && forall t <- left :: left[t] == fmap[t]
        invariant fmap == old(fmap) && open == old(open) - MapFds(Gone(fmap, left))
        decreases left.Keys
      {
        var t :| t in left;
        OneMoreGone(fmap, left, t);
        open := open - {left[t].fd};
        left := left - {t};
      }
      assert Gone(fmap, left) == fmap;
      fmap := map[];
    }
  }

  function Gone(before: Table, now: Table): Table { map k | k in before && k !in now :: before[k] }

  lemma OneMoreGone(before: Table, now: Table, t: Str)
    requires t in now && t in before && now[t] == before[t]
    ensures MapFds(Gone(before, now - {t})) == MapFds(Gone(before, now)) + {now[t].fd}
  {
    var gone, next := Gone(before, now), Gone(before, now - {t});
    assert t in next && next[t] == now[t];
    forall k <- gone ensures k in next && next[k] == gone[k] {}
    forall k <- next ensures k == t || (k in gone && next[k] == gone[k]) {}
  }

  function MapFds(t: Table): (r: set<int>)
    ensures forall fd :: fd in r <==> InMap(t, fd)
  {
    set k | k in t :: t[k].fd
  }

  /******* Any number of calls at once *******/

  // Where a thread inside create_file or close_file stands between its locked
  // and unlocked parts.
  datatype Call =
    | Creating(name: Str, path: Str, size: nat, chunkSize: nat)
    | Inserting(info: FileInfo)
    | Closing(token: Str)
    | Releasing(info: FileInfo)
    | Failed(ret: int)                        // a create that did not get as far as the table
    | Created(token: Str, ret: int)
    | Closed(token: Str, ret: int)

  // opens, closes, created and closed only record history: descriptors opened and
  // closed so far, and the tokens whose create or close returned 0.
  datatype State = State(
    fmap: Table, open: set<int>, calls: seq<Call>,
    opens: nat, closes: nat, created: multiset<Str>, closed: multiset<Str>)

  datatype Event =
    | StartCreate(name: Str, path: Str, size: nat, chunkSize: nat)
    | StartClose(token: Str)
    | SetTargets(token: Str, targets: seq<ChainTarget>)
    | OpenFile(i: nat, os: OsAnswer)
    | InsertEntry(i: nat)
    | EraseEntry(i: nat)
    | Release(i: nat)               // ftruncate, then close

  const Start := State(map[], {}, [], 0, 0, multiset{}, multiset{})

  // None when the event is not possible in s.
  function Step(token: Str -> Str, s: State, ev: Event): Option<State> {
    match ev
    case StartCreate(name, path, size, chunkSize) =>
      Some(s.(calls := s.calls + [Creating(name, path, size, chunkSize)]))
    case StartClose(t) => Some(s.(calls := s.calls + [Closing(t)]))
    case SetTargets(t, targets) => Some(s.(fmap := Link(s.fmap, t, targets).0))
    case OpenFile(i, os) =>
      if i < |s.calls| && s.calls[i].Creating? && OsMay(s.open, os) then
        var c := s.calls[i];
        var (open, r) := OpenPhase(s.open, c.chunkSize, os);
        var next := if r.Refused? then Failed(r.ret)
                    else Inserting(FileInfo(r.fd, c.size, c.name, c.path, token(c.path), []));
        var got: nat := if ChunkSizeOk(c.chunkSize) && os.Opened? then 1 else 0;
        Some(s.(open := open, calls := s.calls[i := next], opens := s.opens + got,
             closes := s.closes + if got == 1 && os.fd !in open then 1 else 0))
      else None
    case InsertEntry(i) =>
      if i < |s.calls| && s.calls[i].Inserting? then
        var info := s.calls[i].info;
        var (t, ret) := Insert(s.fmap, info);
        if ret == 0 then
          Some(s.(fmap := t, calls := s.calls[i := Created(info.fileToken, 0)],
               created := s.created + multiset{info.fileToken}))
        else
          Some(s.(open := s.open - {info.fd}, closes := s.closes + 1,
               calls := s.calls[i := Created(info.fileToken, ret)]))
      else None
    case EraseEntry(i) =>
      if i < |s.calls| && s.calls[i].Closing? then
        var tok := s.calls[i].token;
        var (t, ret) := Erase(s.fmap, tok);
        if ret == 0 then
          Some(s.(fmap := t, calls := s.calls[i := Releasing(s.fmap[tok])], closed := s.closed + multiset{tok}))
        else Some(s.(calls := s.calls[i := Closed(tok, ret)]))
      else None
    case Release(i) =>
      if i < |s.calls| && s.calls[i].Releasing? then
        var info := s.calls[i].info;
        Some(s.(open := s.open - {info.fd}, closes := s.closes + 1, calls := s.calls[i := Closed(info.fileToken, 0)]))
      else None
  }

  function Run(token: Str -> Str, s: State, evs: seq<Event>): Option<State>
    decreases |evs|
  {
    if evs == [] then Some(s)
    else match Step(token, s, evs[0])
      case None => None
      case Some(s1) => Run(token, s1, evs[1..])
  }

  predicate Holds(c: Call) { c.Inserting? || c.Releasing? }

  ghost predicate HeldIn(calls: seq<Call>, fd: int) {
    exists i :: 0 <= i < |calls| && Holds(calls[i]) && calls[i].info.fd == fd
  }

  ghost predicate InMap(t: Table, fd: int) { exists k :: k in t && t[k].fd == fd }

  // Open descriptors are those in the table and those carried by a call between
  // its locked and unlocked parts, each with one owner; descriptor 0 is nobody's.
  ghost predicate Ownership(s: State) {
    && (forall fd :: fd in s.open && fd != 0 <==> InMap(s.fmap, fd) || HeldIn(s.calls, fd))
    && (forall k, l :: k in s.fmap && l in s.fmap && k != l ==> s.fmap[k].fd != s.fmap[l].fd)
    && (forall i, j :: 0 <= i < j < |s.calls| && Holds(s.calls[i]) && Holds(s.calls[j]) ==>
          s.calls[i].info.fd != s.calls[j].info.fd)
    && (forall k, i :: k in s.fmap && 0 <= i < |s.calls| && Holds(s.calls[i]) ==> s.fmap[k].fd != s.calls[i].info.fd)
  }

  // Every key is the token of its entry's path.
  ghost predicate Keyed(token: Str -> Str, s: State) {
    && (forall k :: k in s.fmap ==> k == s.fmap[k].fileToken == token(s.fmap[k].filePath))
    && (forall i :: 0 <= i < |s.calls| && s.calls[i].Inserting? ==>
       s.calls[i].info.fileToken == token(s.calls[i].info.filePath))
  }

  // A close of t that has got the entry: it has returned 0, or it will.
  predicate Won(c: Call, t: Str) {
    (c.Releasing? && c.info.fileToken == t) || (c.Closed? && c.token == t && c.ret == 0)
  }

  // A create of t that has made the entry.
  predicate Made(c: Call, t: Str) { c.Created? && c.token == t && c.ret == 0 }

  function Count(calls: seq<Call>, p: Call -> bool): nat {
    if calls == [] then 0 else (if p(calls[0]) then 1 else 0) + Count(calls[1..], p)
  }

  function Winning(t: Str): Call -> bool { c => Won(c, t) }

  function Making(t: Str): Call -> bool { c => Made(c, t) }

  function Winners(calls: seq<Call>, t: Str): nat { Count(calls, Winning(t)) }

  function Makers(calls: seq<Call>, t: Str): nat { Count(calls, Making(t)) }

  predicate Done(c: Call) { c.Failed? || c.Created? || c.Closed? }

  predicate AllDone(s: State) { forall i :: 0 <= i < |s.calls| ==> Done(s.calls[i]) }

  // What calls reply that have been through the table.
  predicate ReplyOk(c: Call) {
    match c
    case Created(_, ret) => ret in {0, -EEXIST}
    case Closed(_, ret) => ret in {0, -ENOENT}
    case _ => true
  }

  ghost predicate Counted(s: State) {
    && s.opens == s.closes + |s.open|
    && (forall t :: s.created[t] == s.closed[t] + if t in s.fmap then 1 else 0)
    && (forall t :: s.closed[t] == Winners(s.calls, t) && s.created[t] == Makers(s.calls, t))
    && forall i :: 0 <= i < |s.calls| ==> ReplyOk(s.calls[i])
  }

  ghost predicate Inv(token: Str -> Str, s: State) {
    Ownership(s) && Keyed(token, s) && Counted(s)
  }

  lemma OwnershipStep(token: Str -> Str, s: State, ev: Event)
    requires Ownership(s) && Step(token, s, ev).Some?
    ensures Ownership(Step(token, s, ev).value)
  {
    var s' := Step(token, s, ev).value;
    match ev
    case StartCreate(_, _, _, _) => HeldFrame(s, s');
    case StartClose(_) => HeldFrame(s, s');
    case SetTargets(t, ts) =>
      forall fd ensures InMap(s.fmap, fd) <==> InMap(s'.fmap, fd) { InMapLinked(s.fmap, t, ts, fd); }
    case OpenFile(i, os) => OpenOwnership(token, s, i, os);
    case InsertEntry(i) => InsertOwnership(token, s, i);
    case EraseEntry(i) => EraseOwnership(token, s, i);
    case Release(i) => ReleaseOwnership(token, s, i);
  }

  lemma InMapLinked(t: Table, k: Str, ts: seq<ChainTarget>, fd: int)
    ensures InMap(t, fd) <==> InMap(Link(t, k, ts).0, fd)
  {
    var u := Link(t, k, ts).0;
    if x :| x in t && t[x].fd == fd { assert u[x].fd == fd; }
    if x :| x in u && u[x].fd == fd { assert t[x].fd == fd; }
  }

  lemma HeldFrame(s: State, s': State)
    requires |s.calls| < |s'.calls| && s.calls == s'.calls[..|s.calls|]
    requires forall i :: |s.calls| <= i < |s'.calls| ==> !Holds(s'.calls[i])
    ensures forall fd :: HeldIn(s.calls, fd) <==> HeldIn(s'.calls, fd)
  {
    forall fd ensures HeldIn(s.calls, fd) <==> HeldIn(s'.calls, fd) {
      if i :| 0 <= i < |s.calls| && Holds(s.calls[i]) && s.calls[i].info.fd == fd { assert s'.calls[i] == s.calls[i]; }
      if i :| 0 <= i < |s'.calls| && Holds(s'.calls[i]) && s'.calls[i].info.fd == fd {
        assert s.calls[i] == s'.calls[i];
      }
    }
  }

  // What changing one call does to the set of held descriptors.
  lemma HeldUpdate(calls: seq<Call>, i: nat, c: Call, fd: int)
    requires i < |calls|
    ensures Holds(c) && c.info.fd == fd ==> HeldIn(calls[i := c], fd)
    ensures HeldIn(calls[i := c], fd) ==> HeldIn(calls, fd) || (Holds(c) && c.info.fd == fd)
    ensures HeldIn(calls, fd) ==> HeldIn(calls[i := c], fd) || (Holds(calls[i]) && calls[i].info.fd == fd)
  {
    var u := calls[i := c];
    if Holds(c) && c.info.fd == fd { assert Holds(u[i]); }
    if j :| 0 <= j < |u| && Holds(u[j]) && u[j].info.fd == fd { assert j == i || calls[j] == u[j]; }
    if j :| 0 <= j < |calls| && Holds(calls[j]) && calls[j].info.fd == fd { assert j == i || calls[j] == u[j]; }
  }

  lemma OpenOwnership(token: Str -> Str, s: State, i: nat, os: OsAnswer)
    requires Ownership(s) && Step(token, s, OpenFile(i, os)).Some?
    ensures Ownership(Step(token, s, OpenFile(i, os)).value)
  {
    var s' := Step(token, s, OpenFile(i, os)).value;
    forall fd { HeldUpdate(s.calls, i, s'.calls[i], fd); }
    if s'.calls[i].Inserting? {
      forall k | k in s.fmap ensures s.fmap[k].fd != os.fd { assert InMap(s.fmap, s.fmap[k].fd); }
      forall j | 0 <= j < |s.calls| && Holds(s.calls[j])
        ensures s.calls[j].info.fd != os.fd
      {
        assert HeldIn(s.calls, s.calls[j].info.fd);
      }
    }
  }

  lemma InsertOwnership(token: Str -> Str, s: State, i: nat)
    requires Ownership(s) && Step(token, s, InsertEntry(i)).Some?
    ensures Ownership(Step(token, s, InsertEntry(i)).value)
  {
    var s' := Step(token, s, InsertEntry(i)).value;
    var info := s.calls[i].info;
    NotHeldAfter(s.calls, i, s'.calls[i]);
    forall fd { HeldUpdate(s.calls, i, s'.calls[i], fd); }
    assert HeldIn(s.calls, info.fd);
    if info.fileToken !in s.fmap {
      forall fd ensures InMap(s'.fmap, fd) <==> InMap(s.fmap, fd) || fd == info.fd {
        InMapAdded(s.fmap, info.fileToken, info, fd);
      }
    } else {
      assert !InMap(s.fmap, info.fd);
    }
  }

  lemma NotHeldAfter(calls: seq<Call>, i: nat, c: Call)
    requires i < |calls| && Holds(calls[i]) && !Holds(c)
    requires forall j, k :: 0 <= j < k < |calls| && Holds(calls[j]) && Holds(calls[k]) ==>
             calls[j].info.fd != calls[k].info.fd
    ensures !HeldIn(calls[i := c], calls[i].info.fd)
  {
  }

  lemma InMapAdded(t: Table, k: Str, info: FileInfo, fd: int)
    requires k !in t
    ensures InMap(t[k := info], fd) <==> InMap(t, fd) || fd == info.fd
  {
    var u := t[k := info];
    assert u[k].fd == info.fd;
    if x :| x in t && t[x].fd == fd { assert u[x].fd == fd; }
  }

  lemma InMapRemoved(t: Table, k: Str, fd: int)
    requires k in t && forall a, b :: a in t && b in t && a != b ==> t[a].fd != t[b].fd
    ensures InMap(t - {k}, fd) <==> InMap(t, fd) && fd != t[k].fd
  {
    var u := t - {k};
    if x :| x in t && t[x].fd == fd { assert x == k || u[x].fd == fd; }
    if x :| x in u && u[x].fd == fd { assert x in t && t[x].fd == fd; }
  }

  lemma EraseOwnership(token: Str -> Str, s: State, i: nat)
    requires Ownership(s) && Step(token, s, EraseEntry(i)).Some?
    ensures Ownership(Step(token, s, EraseEntry(i)).value)
  {
    var s' := Step(token, s, EraseEntry(i)).value;
    forall fd { HeldUpdate(s.calls, i, s'.calls[i], fd); }
    if s.calls[i].token in s.fmap {
      forall fd { InMapRemoved(s.fmap, s.calls[i].token, fd); }
      assert InMap(s.fmap, s.fmap[s.calls[i].token].fd);
    }
  }

  lemma ReleaseOwnership(token: Str -> Str, s: State, i: nat)
    requires Ownership(s) && Step(token, s, Release(i)).Some?
    ensures Ownership(Step(token, s, Release(i)).value)
  {
    var s' := Step(token, s, Release(i)).value;
    var info := s.calls[i].info;
    NotHeldAfter(s.calls, i, Closed(info.fileToken, 0));
    forall fd { HeldUpdate(s.calls, i, s'.calls[i], fd); }
    assert HeldIn(s.calls, info.fd) && !InMap(s.fmap, info.fd);
  }

  lemma KeyedStep(token: Str -> Str, s: State, ev: Event)
    requires Keyed(token, s) && Step(token, s, ev).Some?
    ensures Keyed(token, Step(token, s, ev).value)
  {
  }

  lemma CountedStep(token: Str -> Str, s: State, ev: Event)
    requires Ownership(s) && Keyed(token, s) && Counted(s) && Step(token, s, ev).Some?
    ensures Counted(Step(token, s, ev).value)
  {
    if ev.InsertEntry? || ev.Release? { HeldIsOpen(s, ev.i); }
    HistoryStep(token, s, ev);
    BalanceStep(token, s, ev);
    forall t { WinnersStep(token, s, ev, t); }
    forall t { MakersStep(token, s, ev, t); }
    RepliesStep(token, s, ev);
  }

  lemma {:induction false} CountUpdate(calls: seq<Call>, i: nat, c: Call, p: Call -> bool)
    requires i < |calls|
    ensures Count(calls[i := c], p) + (if p(calls[i]) then 1 else 0) == Count(calls, p) + if p(c) then 1 else 0
    decreases |calls|
  {
    if i == 0 {
      assert calls[i := c][1..] == calls[1..];
    } else {
      assert calls[i := c][1..] == calls[1..][i - 1 := c];
      CountUpdate(calls[1..], i - 1, c, p);
    }
  }

  lemma {:induction false} CountAppend(calls: seq<Call>, c: Call, p: Call -> bool)
    requires !p(c)
    ensures Count(calls + [c], p) == Count(calls, p)
    decreases |calls|
  {
    if calls == [] {
      assert calls + [c] == [c];
    } else {
      assert (calls + [c])[1..] == calls[1..] + [c];
      CountAppend(calls[1..], c, p);
    }
  }

  // How the number of calls of some kind changes: by the call that the event is about.
  lemma CountStep(token: Str -> Str, s: State, ev: Event, p: Call -> bool)
    requires Step(token, s, ev).Some? && forall c: Call :: p(c) ==> Done(c) || c.Releasing?
    ensures var s' := Step(token, s, ev).value;
            match ev
            case StartCreate(_, _, _, _) => Count(s'.calls, p) == Count(s.calls, p)
            case StartClose(_) => Count(s'.calls, p) == Count(s.calls, p)
            case SetTargets(_, _) => s'.calls == s.calls
            case _ =>
              && ev.i < |s.calls| == |s'.calls|
              && Count(s'.calls, p) + (if p(s.calls[ev.i]) then 1 else 0) ==
                 Count(s.calls, p) + if p(s'.calls[ev.i]) then 1 else 0
  {
    var s' := Step(token, s, ev).value;
    match ev
    case StartCreate(name, path, size, chunkSize) => CountAppend(s.calls, Creating(name, path, size, chunkSize), p);
    case StartClose(u) => CountAppend(s.calls, Closing(u), p);
    case SetTargets(_, _) =>
    case _ => CountUpdate(s.calls, ev.i, s'.calls[ev.i], p);
  }

  lemma WinnersStep(token: Str -> Str, s: State, ev: Event, t: Str)
    requires Keyed(token, s) && Step(token, s, ev).Some? && s.closed[t] == Winners(s.calls, t)
    ensures var s' := Step(token, s, ev).value; s'.closed[t] == Winners(s'.calls, t)
  {
    CountStep(token, s, ev, Winning(t));
  }

  lemma MakersStep(token: Str -> Str, s: State, ev: Event, t: Str)
    requires Step(token, s, ev).Some? && s.created[t] == Makers(s.calls, t)
    ensures var s' := Step(token, s, ev).value; s'.created[t] == Makers(s'.calls, t)
  {
    CountStep(token, s, ev, Making(t));
  }

  lemma RepliesStep(token: Str -> Str, s: State, ev: Event)
    requires Step(token, s, ev).Some? && forall i :: 0 <= i < |s.calls| ==> ReplyOk(s.calls[i])
    ensures var s' := Step(token, s, ev).value; forall i :: 0 <= i < |s'.calls| ==> ReplyOk(s'.calls[i])
  {
  }

  // Creates and closes of a token alternate with its presence in the table.
  lemma HistoryStep(token: Str -> Str, s: State, ev: Event)
    requires Step(token, s, ev).Some?
    requires forall t :: s.created[t] == s.closed[t] + if t in s.fmap then 1 else 0
    ensures var s' := Step(token, s, ev).value;
            forall t :: s'.created[t] == s'.closed[t] + if t in s'.fmap then 1 else 0
  {
  }

  lemma BalanceStep(token: Str -> Str, s: State, ev: Event)
    requires Step(token, s, ev).Some? && s.opens == s.closes + |s.open|
    requires ev.InsertEntry? || ev.Release? ==> s.calls[ev.i].info.fd in s.open
    ensures var s' := Step(token, s, ev).value; s'.opens == s'.closes + |s'.open|
  {
  }

  lemma HeldIsOpen(s: State, i: nat)
    requires Ownership(s) && i < |s.calls| && Holds(s.calls[i])
    ensures s.calls[i].info.fd in s.open && s.calls[i].info.fd != 0
    ensures !InMap(s.fmap, s.calls[i].info.fd)
  {
    assert HeldIn(s.calls, s.calls[i].info.fd);
  }

  lemma InvStep(token: Str -> Str, s: State, ev: Event)
    requires Inv(token, s) && Step(token, s, ev).Some?
    ensures Inv(token, Step(token, s, ev).value)
  {
    OwnershipStep(token, s, ev);
    KeyedStep(token, s, ev);
    CountedStep(token, s, ev);
  }

  lemma {:induction false} InvRun(token: Str -> Str, s: State, evs: seq<Event>)
    requires Inv(token, s) && Run(token, s, evs).Some?
    ensures Inv(token, Run(token, s, evs).value)
    decreases |evs|
  {
    if evs != [] {
      InvStep(token, s, evs[0]);
      InvRun(token, Step(token, s, evs[0]).value, evs[1..]);
    }
  }

  /******* What every interleaving keeps *******/

  lemma Reachable(token: Str -> Str, evs: seq<Event>)
    requires Run(token, Start, evs).Some?
    ensures Inv(token, Run(token, Start, evs).value)
  {
    InvRun(token, Start, evs);
  }

  // A path has at most one open entry, although get_token may collide.
  lemma OneEntryPerPath(token: Str -> Str, evs: seq<Event>, k: Str, l: Str)
    requires Run(token, Start, evs).Some?
    requires k in Run(token, Start, evs).value.fmap && l in Run(token, Start, evs).value.fmap
    requires Run(token, Start, evs).value.fmap[k].filePath == Run(token, Start, evs).value.fmap[l].filePath
    ensures k == l
  {
    Reachable(token, evs);
  }

  // A close never hits a descriptor that is not open or that anyone else owns,
  // so no descriptor is closed twice.
  lemma CloseHitsItsOwn(token: Str -> Str, evs: seq<Event>, i: nat)
    requires Run(token, Start, evs).Some?
    requires i < |Run(token, Start, evs).value.calls| && Holds(Run(token, Start, evs).value.calls[i])
    ensures var s := Run(token, Start, evs).value;
            var fd := s.calls[i].info.fd;
            && fd in s.open && !InMap(s.fmap, fd)
            && forall j :: 0 <= j < |s.calls| && j != i && Holds(s.calls[j]) ==> s.calls[j].info.fd != fd
  {
    Reachable(token, evs);
    HeldIsOpen(Run(token, Start, evs).value, i);
  }

  // With no call in progress exactly the table's descriptors are open, and the
  // destructor closes all of them. Only descriptor 0 can be left over.
  lemma NothingLeaksAtRest(token: Str -> Str, evs: seq<Event>)
    requires Run(token, Start, evs).Some?
    requires AllDone(Run(token, Start, evs).value)
    ensures var s := Run(token, Start, evs).value;
            && s.open - {0} == MapFds(s.fmap)
            && s.open - MapFds(s.fmap) == (if GetsZero(token, Start, evs) then {0} else {})
            && s.opens - s.closes == |s.fmap| + (if GetsZero(token, Start, evs) then 1 else 0)
  {
    Reachable(token, evs);
    ZeroLeaksIff(token, Start, evs);
    AtRest(Run(token, Start, evs).value, GetsZero(token, Start, evs));
  }

  lemma AtRest(s: State, zero: bool)
    requires Ownership(s) && Counted(s) && AllDone(s) && (zero <==> 0 in s.open)
    ensures s.open - {0} == MapFds(s.fmap) && s.open - MapFds(s.fmap) == (if zero then {0} else {})
    ensures s.opens - s.closes == |s.fmap| + if zero then 1 else 0
  {
    MapFdsAtRest(s);
    CountFds(s.fmap);
    WithZero(s.open, MapFds(s.fmap), zero);
  }

  lemma WithZero(all: set<int>, fds: set<int>, zero: bool)
    requires 0 !in fds && all == fds + if zero then {0} else {}
    ensures all - {0} == fds && all - fds == if zero then {0} else {}
    ensures |all| == |fds| + if zero then 1 else 0
  {
  }

  lemma MapFdsAtRest(s: State)
    requires Ownership(s) && AllDone(s)
    ensures 0 !in MapFds(s.fmap) && s.open == MapFds(s.fmap) + (if 0 in s.open then {0} else {})
  {
    assert !InMap(s.fmap, 0);
    forall fd ensures fd in s.open && fd != 0 <==> fd in MapFds(s.fmap) {
      assert fd in s.open && fd != 0 <==> InMap(s.fmap, fd) || HeldIn(s.calls, fd);
    }
  }

  lemma {:induction false} CountFds(t: Table)
    requires forall k, l :: k in t && l in t && k != l ==> t[k].fd != t[l].fd
    ensures |MapFds(t)| == |t|
    decreases |t|
  {
    if t != map[] {
      var k :| k in t;
      var u := t - {k};
      CountFds(u);
      forall fd { InMapRemoved(t, k, fd); }
      assert InMap(t, t[k].fd);
      assert MapFds(t) == MapFds(u) + {t[k].fd};
    } else {
      assert MapFds(t) == {};
    }
  }

  // The kernel answers an open of create_file with descriptor 0.
  predicate ZeroOpen(s: State, ev: Event) {
    && ev.OpenFile? && ev.i < |s.calls| && s.calls[ev.i].Creating?
    && ChunkSizeOk(s.calls[ev.i].chunkSize) && ev.os.Opened? && ev.os.fd == 0
  }

  predicate GetsZero(token: Str -> Str, s: State, evs: seq<Event>)
    decreases |evs|
  {
    evs != [] &&
    (ZeroOpen(s, evs[0]) ||
     (Step(token, s, evs[0]).Some? && GetsZero(token, Step(token, s, evs[0]).value, evs[1..])))
  }

  lemma ZeroStep(token: Str -> Str, s: State, ev: Event)
    requires Step(token, s, ev).Some?
    requires ev.InsertEntry? || ev.Release? ==> s.calls[ev.i].info.fd != 0
    ensures 0 in Step(token, s, ev).value.open <==> 0 in s.open || ZeroOpen(s, ev)
  {
  }

  lemma {:induction false} ZeroLeaksIff(token: Str -> Str, s: State, evs: seq<Event>)
    requires Inv(token, s) && Run(token, s, evs).Some?
    ensures 0 in Run(token, s, evs).value.open <==> 0 in s.open || GetsZero(token, s, evs)
    decreases |evs|
  {
    if evs != [] {
      var ev, s1 := evs[0], Step(token, s, evs[0]).value;
      InvStep(token, s, ev);
      if ev.InsertEntry? || ev.Release? { HeldIsOpen(s, ev.i); }
      ZeroStep(token, s, ev);
      ZeroLeaksIff(token, s1, evs[1..]);
    }
  }

  lemma {:induction false} HistoryGrows(token: Str -> Str, s: State, evs: seq<Event>, t: Str)
    requires Run(token, s, evs).Some?
    ensures s.created[t] <= Run(token, s, evs).value.created[t] && s.closed[t] <= Run(token, s, evs).value.closed[t]
    decreases |evs|
  {
    if evs != [] { HistoryGrows(token, Step(token, s, evs[0]).value, evs[1..], t); }
  }

  // A close of t has been through the locked part.
  predicate Decided(c: Call, t: Str) {
    (c.Releasing? && c.info.fileToken == t) || (c.Closed? && c.token == t)
  }

  // Such a close has come about on the way from s to s'.
  predicate CloseDecided(s: State, s': State, t: Str) {
    exists i :: 0 <= i < |s'.calls| && Decided(s'.calls[i], t) && !(i < |s.calls| && Decided(s.calls[i], t))
  }

  lemma DecideStep(token: Str -> Str, s: State, ev: Event, t: Str)
    requires Keyed(token, s) && Step(token, s, ev).Some?
    ensures var s' := Step(token, s, ev).value;
            && (CloseDecided(s, s', t) ==> t !in s'.fmap)
            && (t !in s.fmap && s'.created[t] == s.created[t] ==> t !in s'.fmap)
            && |s.calls| <= |s'.calls|
            && forall i :: 0 <= i < |s.calls| && Decided(s.calls[i], t) ==> Decided(s'.calls[i], t)
  {
  }

  lemma {:induction false} DecidedIsGone(token: Str -> Str, s: State, evs: seq<Event>, t: Str)
    requires Inv(token, s) && Run(token, s, evs).Some? && Run(token, s, evs).value.created[t] == s.created[t]
    ensures var s' := Run(token, s, evs).value;
            && (CloseDecided(s, s', t) || t !in s.fmap ==> t !in s'.fmap)
    decreases |evs|
  {
    if evs != [] {
      var s1, s' := Step(token, s, evs[0]).value, Run(token, s, evs).value;
      InvStep(token, s, evs[0]);
      HistoryGrows(token, s, [evs[0]], t);
      HistoryGrows(token, s1, evs[1..], t);
      DecideStep(token, s, evs[0], t);
      DecidedIsGone(token, s1, evs[1..], t);
      if CloseDecided(s, s', t) && !CloseDecided(s, s1, t) {
        var i :| 0 <= i < |s'.calls| && Decided(s'.calls[i], t) && !(i < |s.calls| && Decided(s.calls[i], t));
        assert !(i < |s1.calls| && Decided(s1.calls[i], t));
      }
    }
  }

  // While nobody re-creates t, however many closes of it are at work: as soon as one
  // of them has been through the locked part the entry is gone, and if there was an
  // entry then exactly one more close has won, that is, returned 0 or is about to.
  lemma OneCloseWins(token: Str -> Str, before: seq<Event>, evs: seq<Event>, t: Str)
    requires Run(token, Start, before).Some?
    requires Run(token, Run(token, Start, before).value, evs).Some?
    requires var s := Run(token, Start, before).value; Run(token, s, evs).value.created[t] == s.created[t]
    ensures var s := Run(token, Start, before).value;
            var s' := Run(token, s, evs).value;
            && (CloseDecided(s, s', t) ==> t !in s'.fmap)
            && (CloseDecided(s, s', t) && t in s.fmap ==> Winners(s'.calls, t) == Winners(s.calls, t) + 1)
            && (t !in s.fmap ==> t !in s'.fmap && Winners(s'.calls, t) == Winners(s.calls, t))
            && (t in s'.fmap ==> Winners(s'.calls, t) == Winners(s.calls, t))
  {
    var s := Run(token, Start, before).value;
    Reachable(token, before);
    InvRun(token, s, evs);
    DecidedIsGone(token, s, evs, t);
  }

  // A create of t has been through the table.
  predicate Tried(c: Call, t: Str) { c.Created? && c.token == t }

  predicate CreateTried(s: State, s': State, t: Str) {
    exists i :: 0 <= i < |s'.calls| && Tried(s'.calls[i], t) && !(i < |s.calls| && Tried(s.calls[i], t))
  }

  lemma TryStep(token: Str -> Str, s: State, ev: Event, t: Str)
    requires Keyed(token, s) && Step(token, s, ev).Some?
    ensures var s' := Step(token, s, ev).value;
            && (CreateTried(s, s', t) ==> t in s'.fmap)
            && (t in s.fmap && s'.closed[t] == s.closed[t] ==> t in s'.fmap)
            && |s.calls| <= |s'.calls|
            && forall i :: 0 <= i < |s.calls| && Tried(s.calls[i], t) ==> s'.calls[i] == s.calls[i]
  {
  }

  lemma {:induction false} TriedIsThere(token: Str -> Str, s: State, evs: seq<Event>, t: Str)
    requires Inv(token, s) && Run(token, s, evs).Some? && Run(token, s, evs).value.closed[t] == s.closed[t]
    ensures var s' := Run(token, s, evs).value;
            && (CreateTried(s, s', t) || t in s.fmap ==> t in s'.fmap) && |s.calls| <= |s'.calls|
            && forall i :: 0 <= i < |s.calls| && Tried(s.calls[i], t) ==> s'.calls[i] == s.calls[i]
    decreases |evs|
  {
    if evs != [] {
      var s1, s' := Step(token, s, evs[0]).value, Run(token, s, evs).value;
      InvStep(token, s, evs[0]);
      HistoryGrows(token, s, [evs[0]], t);
      HistoryGrows(token, s1, evs[1..], t);
      TryStep(token, s, evs[0], t);
      TriedIsThere(token, s1, evs[1..], t);
      if CreateTried(s, s', t) && !CreateTried(s, s1, t) {
        var i :| 0 <= i < |s'.calls| && Tried(s'.calls[i], t) && !(i < |s.calls| && Tried(s.calls[i], t));
        assert !(i < |s1.calls| && Tried(s1.calls[i], t));
      }
    }
  }

  // While nobody closes t, however many creates of it are at work: as soon as one of
  // them has been through the table the entry is there, and if there was none then
  // exactly one of them has returned 0. Every other one that gets there returns -EEXIST,
  // and all of them do if there was an entry.
  lemma OneCreateWins(token: Str -> Str, before: seq<Event>, evs: seq<Event>, t: Str)
    requires Run(token, Start, before).Some?
    requires Run(token, Run(token, Start, before).value, evs).Some?
    requires var s := Run(token, Start, before).value; Run(token, s, evs).value.closed[t] == s.closed[t]
    ensures var s := Run(token, Start, before).value;
            var s' := Run(token, s, evs).value;
            && (CreateTried(s, s', t) ==> t in s'.fmap)
            && (CreateTried(s, s', t) && t !in s.fmap ==> Makers(s'.calls, t) == Makers(s.calls, t) + 1)
            && (t in s.fmap ==> t in s'.fmap && Makers(s'.calls, t) == Makers(s.calls, t))
            && (t !in s'.fmap ==> Makers(s'.calls, t) == Makers(s.calls, t))
            && (forall i :: 0 <= i < |s'.calls| && Tried(s'.calls[i], t) ==>
                  (Made(s'.calls[i], t) || s'.calls[i].ret == -EEXIST) && ReplyOk(s'.calls[i]))
            && |s.calls| <= |s'.calls|
            && forall i :: 0 <= i < |s.calls| && Tried(s.calls[i], t) ==> s'.calls[i] == s.calls[i]
  {
    var s := Run(token, Start, before).value;
    Reachable(token, before);
    InvRun(token, s, evs);
    TriedIsThere(token, s, evs, t);
  }

  /******* One call alone *******/

  // A create with nothing in between does what create_file does as one step, be it
  // that the open fails or that it goes on to the table.
  lemma FailAlone(token: Str -> Str, s: State, name: Str, path: Str, size: nat, chunkSize: nat, os: OsAnswer)
    requires OsMay(s.open, os) && OpenPhase(s.open, chunkSize, os).1.Refused?
    ensures var r := Run(token, s, [StartCreate(name, path, size, chunkSize), OpenFile(|s.calls|, os)]);
            var (open, how) := OpenPhase(s.open, chunkSize, os);
            && r.Some? && r.value.fmap == s.fmap && r.value.open == open && r.value.calls == s.calls + [Failed(how.ret)]
  {
    var i, start := |s.calls|, StartCreate(name, path, size, chunkSize);
    var s1 := Step(token, s, start).value;
    var ret := OpenPhase(s.open, chunkSize, os).1.ret;
    assert s1.calls[i := Failed(ret)] == s.calls + [Failed(ret)];
    assert [start, OpenFile(i, os)][1..] == [OpenFile(i, os)];
    assert Run(token, s1, [OpenFile(i, os)]) == Step(token, s1, OpenFile(i, os));
  }

  lemma CreateAlone(token: Str -> Str, s: State, name: Str, path: Str, size: nat, chunkSize: nat, os: OsAnswer)
    requires OsMay(s.open, os) && OpenPhase(s.open, chunkSize, os).1.Holding?
    ensures var i := |s.calls|;
            var r := Run(token, s, [StartCreate(name, path, size, chunkSize), OpenFile(i, os), InsertEntry(i)]);
            var (open, how) := OpenPhase(s.open, chunkSize, os);
            var (t, ret) := Insert(s.fmap, FileInfo(how.fd, size, name, path, token(path), []));
            && r.Some? && r.value.fmap == t && r.value.calls == s.calls + [Created(token(path), ret)]
            && r.value.open == if ret == 0 then open else open - {how.fd}
  {
    var i, start := |s.calls|, StartCreate(name, path, size, chunkSize);
    var s2 := Step(token, Step(token, s, start).value, OpenFile(i, os)).value;
    assert [start, OpenFile(i, os), InsertEntry(i)][1..] == [OpenFile(i, os), InsertEntry(i)];
    assert [OpenFile(i, os), InsertEntry(i)][1..] == [InsertEntry(i)];
    assert Run(token, s2, [InsertEntry(i)]) == Step(token, s2, InsertEntry(i));
  }

  // And so does a close.
  lemma CloseAlone(token: Str -> Str, s: State, t: Str)
    requires Keyed(token, s)
    ensures var i := |s.calls|;
            var (fmap, ret) := Erase(s.fmap, t);
            var evs := [StartClose(t), EraseEntry(i)] + if t in s.fmap then [Release(i)] else [];
            var r := Run(token, s, evs);
            && r.Some? && r.value.fmap == fmap && r.value.calls == s.calls + [Closed(t, ret)]
            && r.value.open == if t in s.fmap then s.open - {s.fmap[t].fd} else s.open
  {
    var i := |s.calls|;
    var s1 := Step(token, s, StartClose(t)).value;
    var s2 := Step(token, s1, EraseEntry(i)).value;
    if t in s.fmap {
      assert [StartClose(t), EraseEntry(i), Release(i)][1..] == [EraseEntry(i), Release(i)];
      assert [EraseEntry(i), Release(i)][1..] == [Release(i)];
      assert Run(token, s2, [Release(i)]) == Step(token, s2, Release(i));
    } else {
      assert [StartClose(t), EraseEntry(i)][1..] == [EraseEntry(i)];
      assert Run(token, s1, [EraseEntry(i)]) == Some(s2);
    }
  }

  // set_chain_targets has one part only.
  lemma LinkAlone(token: Str -> Str, s: State, t: Str, targets: seq<ChainTarget>)
    ensures var r := Run(token, s, [SetTargets(t, targets)]);
            && r.Some? && r.value == s.(fmap := r.value.fmap) && r.value.fmap.Keys == s.fmap.Keys
            && forall u :: u in s.fmap ==>
                 r.value.fmap[u] == if u == t then s.fmap[u].(targets := targets) else s.fmap[u]
  {
    assert [SetTargets(t, targets)][1..] == [];
    assert Run(token, s, [SetTargets(t, targets)]) == Step(token, s, SetTargets(t, targets));
  }
}
