/** One lock file for each profile, created exclusively, and reclaimed only when
    its holder is certainly dead.  With the reading of the holder and the removal
    of its file as one step, at most one process holds the lock; as separate steps
    they exclude exactly as long as no removal takes the file of a live process. */
module Lock {
  import opened Schema

  type Pid = nat

  datatype LockData = LockData(pid: Pid, host: string, startedAt: Option<int>)

  /** A file whose text is not (yet) a holder's data is unreadable. */
  datatype Content = Unreadable | Holder(data: LockData)

  const STALE_AGE_SECS: int := 24 * 60 * 60

  // ----- classification -----

  datatype Note = FileUnreadable | OtherHost | HeldTooLong

  datatype StaleDecision = Reclaim | Conflict(note: Option<Note>)

  /** Number 0 would ask about a whole group, and counts as existing. */
  predicate Exists(pid: Pid, alive: set<Pid>) {
    pid == 0 || pid in alive
  }

  /** `here` is this host, `alive` the processes that exist on it. */
  function Classify(holder: Option<LockData>, here: string, alive: set<Pid>, now: int): (d: StaleDecision)
    ensures d == Reclaim <==>
              holder.Some? && holder.value.host == here && holder.value.pid != 0 && holder.value.pid !in alive
  {
    if holder.None? then Conflict(Some(FileUnreadable))
    else if holder.value.host != here then Conflict(Some(OtherHost))
    else if !Exists(holder.value.pid, alive) then Reclaim
    else if holder.value.startedAt.Some? && now - holder.value.startedAt.value > STALE_AGE_SECS
    then Conflict(Some(HeldTooLong))
    else Conflict(None)
  }

  function HolderIn(file: Option<Content>): Option<LockData> {
    if file.Some? && file.value.Holder? then Some(file.value.data) else None
  }

  // ----- one acquisition on its own -----

  datatype AcquireError = LockConflict(note: Option<Note>) | WriteFailed

  class LockFile {
    var content: Option<Content>

    constructor (content: Option<Content>)
      ensures this.content == content
    {
      this.content := content;
    }

    method Remove()
      modifies this
      ensures content == None
    {
      content := None;
    }
  }

  /** While armed, dropping the guard removes the file. */
  class LockGuard {
    const file: LockFile
    const data: LockData
    var armed: bool

    constructor (file: LockFile, data: LockData)
      ensures this.file == file && this.data == data && armed
    {
      this.file := file;
      this.data := data;
      armed := true;
    }

    /** Idempotent: a second call leaves whatever is there by then. */
    method Unlock()
      modifies this, file
      ensures !armed && file.content == if old(armed) then None else old(file.content)
    {
      if !armed {
        return;
      }
      armed := false;
      file.Remove();
    }
  }

  /** Creates the file unless it exists; a failed write takes it away again. */
  method TryCreate(file: LockFile, data: LockData) returns (r: Result<Option<LockGuard>, AcquireError>)
    modifies file
    ensures old(file.content).Some? ==> r == Ok(None) && file.content == old(file.content)
    ensures old(file.content).None? ==> r == Err(WriteFailed) || (r.Ok? && r.value.Some?)
    ensures r.Ok? && r.value.Some? ==>
              && fresh(r.value.value) && r.value.value.file == file && r.value.value.armed && r.value.value.data == data
              && file.content == Some(Holder(data))
    ensures r.Err? ==> r.error == WriteFailed && old(file.content) == None && file.content == None
  {
    if file.content.Some? {
      return Ok(None);
    }
    file.content := Some(Unreadable);
    var written: bool := *;
    if !written {
      file.Remove();
      return Err(WriteFailed);
    }
    file.content := Some(Holder(data));
    var guard := new LockGuard(file, data);
    r := Ok(Some(guard));
  }

  /** No file, or the file of a process of this host that does not exist; number 0
      never counts as dead. */
  ghost predicate IsFree(content: Option<Content>, here: string, alive: set<Pid>) {
    content.Some? ==>
      && content.value.Holder? && content.value.data.host == here
      && content.value.data.pid != 0 && content.value.data.pid !in alive
  }

  /** Why a lock is in conflict: unreadable, of another host, or held for more than
      a day by a process that exists. */
  ghost function NoteOn(content: Content, here: string, now: int): Option<Note> {
    if content.Unreadable? then Some(FileUnreadable)
    else if content.data.host != here then Some(OtherHost)
    else if content.data.startedAt.Some? && content.data.startedAt.value + 86400 < now then Some(HeldTooLong)
    else None
  }

  /** With nobody else about: the lock is taken exactly when it is free or its
      holder is certainly dead, and otherwise the file is left as it is. */
  method AcquireIn(file: LockFile, data: LockData, alive: set<Pid>, now: int) returns (r: Result<LockGuard, AcquireError>)
    modifies file
    ensures var free := IsFree(old(file.content), data.host, alive);
            && (r.Ok? ==> free && fresh(r.value) && r.value.armed && r.value.file == file && r.value.data == data
                          && file.content == Some(Holder(data)))
            && (r.Err? && r.error.LockConflict? <==> !free)
            && (!free ==> file.content == old(file.content) && r.error.note == NoteOn(old(file.content).value, data.host, now))
            && (r.Err? && free ==> r.error == WriteFailed && file.content == None)
  {
    var first := TryCreate(file, data);
    if first.Err? {
      return Err(first.error);
    }
    if first.value.Some? {
      return Ok(first.value.value);
    }
    var decision := Classify(HolderIn(file.content), data.host, alive, now);
    if decision.Conflict? {
      return Err(LockConflict(decision.note));
    }
    file.Remove();
    var second := TryCreate(file, data);
    if second.Err? {
      return Err(second.error);
    }
    r := Ok(second.value.value);
  }

  // ----- interleaved processes -----

  /** Where a process stands.  The number is the file that it created. */
  datatype Pc =
    | Starting(retry: bool) // about to create the file
    | Writing(inode: nat)   // created it, its data is not yet written
    | Failing(inode: nat)   // the write failed, about to remove it
    | Holding(inode: nat)   // holds an armed guard
    | Unlocking(inode: nat) // disarmed the guard, about to remove the file
    | Checking              // found a file, about to read its holder
    | Reclaiming(inode: nat) // read a dead holder in that file, about to remove the name
    | Finished

  datatype File = File(inode: nat, content: Content)

  /** `procs` are the live processes of the program, `others` the other live ones. */
  datatype State = State(file: Option<File>, procs: map<Pid, Pc>, others: set<Pid>, nextInode: nat)

  const HERE: string := "here"

  function DataOf(p: Pid): LockData {
    LockData(p, HERE, None)
  }

  function HolderOf(file: Option<File>): Option<LockData> {
    if file.Some? then HolderIn(Some(file.value.content)) else None
  }

  function Alive(s: State): set<Pid> {
    s.procs.Keys + s.others
  }

  predicate IsDoomed(s: State) {
    Classify(HolderOf(s.file), HERE, Alive(s), 0) == Reclaim
  }

  function Goto(s: State, p: Pid, pc: Pc): State {
    s.(procs := s.procs[p := pc])
  }

  /** A process starts, under any number that no live process has. */
  ghost predicate Starts(s: State, s': State, p: Pid) {
    !Exists(p, Alive(s)) && s' == Goto(s, p, Starting(false))
  }

  ghost predicate Crashes(s: State, s': State, p: Pid) {
    p in s.procs && s' == s.(procs := s.procs - {p})
  }

  ghost predicate OthersChange(s: State, s': State, others: set<Pid>) {
    others !! s.procs.Keys && s' == s.(others := others)
  }

  /** The exclusive creation: it succeeds when there is no file. */
  ghost predicate Creates(s: State, s': State, p: Pid) {
    && p in s.procs && s.procs[p].Starting?
    && if s.file.None?
       then s' == Goto(s, p, Writing(s.nextInode)).(file := Some(File(s.nextInode, Unreadable)),
                                                    nextInode := s.nextInode + 1)
       else s' == Goto(s, p, if s.procs[p].retry then Finished else Checking)
  }

  /** A write goes to the file that was created, even if its name is gone. */
  ghost predicate Writes(s: State, s': State, p: Pid, ok: bool) {
    && p in s.procs && s.procs[p].Writing?
    && var inode := s.procs[p].inode;
       if !ok then s' == Goto(s, p, Failing(inode))
       else s' == Goto(s, p, Holding(inode)).(
         file := if s.file.Some? && s.file.value.inode == inode then Some(File(inode, Holder(DataOf(p)))) else s.file)
  }

  /** Removing goes by name, whatever file that is by then. */
  ghost predicate Removes(s: State, s': State, p: Pid) {
    && p in s.procs && (s.procs[p].Failing? || s.procs[p].Unlocking?)
    && s' == Goto(s, p, Finished).(file := None)
  }

  ghost predicate Disarms(s: State, s': State, p: Pid) {
    p in s.procs && s.procs[p].Holding? && s' == Goto(s, p, Unlocking(s.procs[p].inode))
  }

  /** Reads the holder and decides; when `atomic`, a dead holder's file is removed
      in the same step. */
  ghost predicate Checks(atomic: bool, s: State, s': State, p: Pid) {
    && p in s.procs && s.procs[p] == Checking
    && if !IsDoomed(s) then s' == Goto(s, p, Finished)
       else if atomic then s' == Goto(s, p, Starting(true)).(file := None)
       else s' == Goto(s, p, Reclaiming(s.file.value.inode))
  }

  ghost predicate Reclaims(atomic: bool, s: State, s': State, p: Pid) {
    !atomic && p in s.procs && s.procs[p].Reclaiming? && s' == Goto(s, p, Starting(true)).(file := None)
  }

  ghost predicate Next(atomic: bool, s: State, s': State) {
    || (exists p :: Starts(s, s', p))
    || (exists p :: Crashes(s, s', p))
    || (exists others :: OthersChange(s, s', others))
    || (exists p :: Creates(s, s', p))
    || (exists p, ok :: Writes(s, s', p, ok))
    || (exists p :: Removes(s, s', p))
    || (exists p :: Disarms(s, s', p))
    || (exists p :: Checks(atomic, s, s', p))
    || (exists p :: Reclaims(atomic, s, s', p))
  }

  /** At first nobody runs; any file may have been left behind. */
  ghost predicate Init(s: State) {
    s.procs == map[] && (s.file.Some? ==> s.file.value.inode < s.nextInode)
  }

  ghost predicate IsRun(atomic: bool, run: seq<State>) {
    && run != [] && Init(run[0])
    && forall i, j :: 0 <= i < |run| && j == i + 1 < |run| ==> Next(atomic, run[i], run[j])
  }

  // ----- mutual exclusion -----

  predicate IsHolding(s: State, p: Pid) {
    p in s.procs && s.procs[p].Holding?
  }

  /** At most one process holds the lock, and the file names it. */
  ghost predicate IsExclusive(s: State) {
    && (forall p, q :: IsHolding(s, p) && IsHolding(s, q) ==> p == q)
    && (forall p :: IsHolding(s, p) ==> s.file.Some? && s.file.value.content == Holder(DataOf(p)))
  }

  predicate Owns(pc: Pc) {
    pc.Writing? || pc.Failing? || pc.Holding? || pc.Unlocking?
  }

  predicate IsOwner(s: State, p: Pid) {
    p in s.procs && Owns(s.procs[p])
  }

  /** A process that owns a file finds it under the name, with what it wrote. */
  ghost predicate OwnsFile(s: State, p: Pid) {
    IsOwner(s, p) ==>
      && s.file.Some? && s.file.value.inode == s.procs[p].inode
      && s.file.value.content
         == if s.procs[p].Holding? || s.procs[p].Unlocking? then Holder(DataOf(p)) else Unreadable
  }

  /** From the creation of its file to its removal each process is alone. */
  ghost predicate OwnersExclude(s: State) {
    && (forall p {:trigger OwnsFile(s, p)} :: OwnsFile(s, p))
    && (forall p, q :: IsOwner(s, p) && IsOwner(s, q) ==> p == q)
  }

  ghost predicate Inv(s: State) {
    (s.file.Some? ==> s.file.value.inode < s.nextInode) && OwnersExclude(s)
  }

  /** A reclaim takes the file of a live process. */
  ghost predicate TakesLiveFile(s: State, s': State) {
    && s.file.Some? && (exists p :: Reclaims(false, s, s', p))
    && exists q :: IsOwner(s, q) && s.procs[q].inode == s.file.value.inode
  }

  /** A missing or doomed file has no owner: an owner's file is there, and it is
      unreadable or its holder lives. */
  lemma NoOwner(s: State)
    requires Inv(s) && (s.file.None? || IsDoomed(s))
    ensures forall q :: !IsOwner(s, q)
  {
    forall q ensures !IsOwner(s, q) {
      assert OwnsFile(s, q);
    }
  }

  /** Only the file of a dead holder of this host is taken away, if nobody owns it:
      the holder may be any process, not only one of this program. */
  lemma LiveHolderKeepsFile(s: State, s': State, inode: nat, d: LockData)
    requires Inv(s) && Next(true, s, s') && s.file == Some(File(inode, Holder(d)))
    requires d.pid !in s.procs && (d.host != HERE || d.pid == 0 || d.pid in s.others)
    ensures s'.file == s.file
  {
    forall q | q in s.procs ensures !Owns(s.procs[q]) {
      assert OwnsFile(s, q);
    }
  }

  /** A step of `p` that leaves the file alone and makes it no owner. */
  lemma QuietStepKeepsInv(s: State, s': State, p: Pid)
    requires Inv(s) && s'.file == s.file && s'.nextInode == s.nextInode
    requires forall q :: q != p ==> (q in s'.procs <==> q in s.procs) && (q in s.procs ==> s'.procs[q] == s.procs[q])
    requires p in s'.procs ==> !Owns(s'.procs[p])
    ensures Inv(s')
  {
    forall q ensures OwnsFile(s', q) {
      assert OwnsFile(s, q);
    }
    forall q, r | IsOwner(s', q) && IsOwner(s', r) ensures q == r {
      assert IsOwner(s, q) && IsOwner(s, r);
    }
  }

  /** A step of an owner, or of a process that becomes one, when nobody else is. */
  lemma OwnerStepKeepsInv(s: State, s': State, p: Pid)
    requires Inv(s) && p in s'.procs
    requires forall q :: q != p ==> (q in s'.procs <==> q in s.procs) && (q in s.procs ==> s'.procs[q] == s.procs[q])
    requires forall q :: IsOwner(s, q) ==> q == p
    requires OwnsFile(s', p) && (s'.file.Some? ==> s'.file.value.inode < s'.nextInode)
    ensures Inv(s')
  {
    forall q, r | IsOwner(s', q) && IsOwner(s', r) ensures q == p && r == p {
      assert q != p ==> IsOwner(s, q);
      assert r != p ==> IsOwner(s, r);
    }
    forall q ensures OwnsFile(s', q) {
      assert q != p && IsOwner(s', q) ==> IsOwner(s, q);
    }
  }

  lemma CreatesKeepsInv(s: State, s': State, p: Pid)
    requires Inv(s) && Creates(s, s', p)
    ensures Inv(s')
  {
    if s.file.None? {
      NoOwner(s);
      OwnerStepKeepsInv(s, s', p);
    } else {
      QuietStepKeepsInv(s, s', p);
    }
  }

  lemma OwnersStepKeepsInv(s: State, s': State, p: Pid)
    requires Inv(s) && (Removes(s, s', p) || Disarms(s, s', p) || Writes(s, s', p, true) || Writes(s, s', p, false))
    ensures Inv(s')
  {
    assert OwnsFile(s, p) && IsOwner(s, p);
    OwnerStepKeepsInv(s, s', p);
  }

  lemma ChecksKeepsInv(atomic: bool, s: State, s': State, p: Pid)
    requires Inv(s) && Checks(atomic, s, s', p)
    ensures Inv(s')
  {
    if IsDoomed(s) && atomic {
      NoOwner(s);
      OwnerStepKeepsInv(s, s', p);
    } else {
      QuietStepKeepsInv(s, s', p);
    }
  }

  /** Removing a file that no live process owns is harmless. */
  lemma ReclaimsKeepsInv(s: State, s': State, p: Pid)
    requires Inv(s) && Reclaims(false, s, s', p) && !TakesLiveFile(s, s')
    ensures Inv(s')
  {
    forall q ensures !IsOwner(s, q) {
      assert OwnsFile(s, q);
    }
    OwnerStepKeepsInv(s, s', p);
  }

  lemma OthersChangeKeepsInv(s: State, s': State, others: set<Pid>)
    requires Inv(s) && OthersChange(s, s', others)
    ensures Inv(s')
  {
    forall q ensures OwnsFile(s', q) {
      assert OwnsFile(s, q);
    }
    forall q, r | IsOwner(s', q) && IsOwner(s', r) ensures q == r {
      assert IsOwner(s, q) && IsOwner(s, r);
    }
  }

  lemma StepKeepsInv(atomic: bool, s: State, s': State)
    requires Inv(s) && Next(atomic, s, s') && (!atomic ==> !TakesLiveFile(s, s'))
    ensures Inv(s')
  {
    if p :| Starts(s, s', p) {
      QuietStepKeepsInv(s, s', p);
    } else if p :| Crashes(s, s', p) {
      QuietStepKeepsInv(s, s', p);
    } else if others :| OthersChange(s, s', others) {
      OthersChangeKeepsInv(s, s', others);
    } else if p :| Creates(s, s', p) {
      CreatesKeepsInv(s, s', p);
    } else if p, ok :| Writes(s, s', p, ok) {
      OwnersStepKeepsInv(s, s', p);
    } else if p :| Removes(s, s', p) {
      OwnersStepKeepsInv(s, s', p);
    } else if p :| Disarms(s, s', p) {
      OwnersStepKeepsInv(s, s', p);
    } else if p :| Checks(atomic, s, s', p) {
      ChecksKeepsInv(atomic, s, s', p);
    } else {
      var p :| Reclaims(atomic, s, s', p);
      ReclaimsKeepsInv(s, s', p);
    }
  }

  lemma InvIsExclusive(s: State)
    requires OwnersExclude(s)
    ensures IsExclusive(s)
  {
    forall p, q | IsHolding(s, p) && IsHolding(s, q) ensures p == q {
      assert IsOwner(s, p) && IsOwner(s, q);
    }
    forall p | IsHolding(s, p) ensures s.file.Some? && s.file.value.content == Holder(DataOf(p)) {
      assert OwnsFile(s, p);
    }
  }

  /** No step of the run takes the file of a live process. */
  ghost predicate SparesLiveFiles(run: seq<State>) {
    forall i, j :: 0 <= i < |run| && j == i + 1 < |run| ==> !TakesLiveFile(run[i], run[j])
  }

  lemma {:induction false} RunKeepsInv(atomic: bool, run: seq<State>, k: nat)
    requires IsRun(atomic, run) && k < |run| && (!atomic ==> SparesLiveFiles(run))
    ensures Inv(run[k])
  {
    if k > 0 {
      RunKeepsInv(atomic, run, k - 1);
      StepKeepsInv(atomic, run[k - 1], run[k]);
    }
  }

  /** Taking the file of a live process leaves that process without it. */
  lemma LiveFileIsMissed(s: State, s': State)
    requires TakesLiveFile(s, s')
    ensures !OwnersExclude(s')
  {
    var p :| Reclaims(false, s, s', p);
    var q :| IsOwner(s, q) && s.procs[q].inode == s.file.value.inode;
    assert IsOwner(s', q) && !OwnsFile(s', q);
  }

  /** In every run of the program as it is, with reading and removing separate,
      the processes exclude each other throughout exactly when no removal takes
      the file of a live process. */
  lemma RunExcludesMeansSparesLive(run: seq<State>)
    requires IsRun(false, run)
    ensures (forall k :: 0 <= k < |run| ==> OwnersExclude(run[k])) <==> SparesLiveFiles(run)
  {
    if SparesLiveFiles(run) {
      forall k | 0 <= k < |run| ensures OwnersExclude(run[k]) {
        RunKeepsInv(false, run, k);
      }
    } else {
      var i, j :| 0 <= i < |run| && j == i + 1 < |run| && TakesLiveFile(run[i], run[j]);
      LiveFileIsMissed(run[i], run[j]);
    }
  }

  // ----- a removal that takes what was read -----

  /** Every removal takes the file whose holder was read, or none. */
  ghost predicate TakesWhatWasRead(run: seq<State>) {
    forall i, j, p :: 0 <= i < |run| && j == i + 1 < |run| && Reclaims(false, run[i], run[j], p) ==>
      run[i].file.Some? ==> run[i].file.value.inode == run[i].procs[p].inode
  }

  /** A file that was found dead is nobody's, ever after. */
  ghost predicate ReadIsDead(s: State) {
    forall p, q :: p in s.procs && s.procs[p].Reclaiming? && IsOwner(s, q) ==> s.procs[p].inode != s.procs[q].inode
  }

  ghost predicate ReadIsOld(s: State) {
    forall p :: p in s.procs && s.procs[p].Reclaiming? ==> s.procs[p].inode < s.nextInode
  }

  /** A step that makes no new owner and no new reader of a dead holder. */
  lemma PlainStepKeepsReadDead(s: State, s': State, p: Pid)
    requires ReadIsDead(s) && ReadIsOld(s) && s'.nextInode == s.nextInode
    requires forall q :: q != p ==> (q in s'.procs <==> q in s.procs) && (q in s.procs ==> s'.procs[q] == s.procs[q])
    requires p in s'.procs ==> !s'.procs[p].Reclaiming?
    requires IsOwner(s', p) ==> IsOwner(s, p) && s'.procs[p].inode == s.procs[p].inode
    ensures ReadIsDead(s') && ReadIsOld(s')
  {
    forall r, q | r in s'.procs && s'.procs[r].Reclaiming? && IsOwner(s', q)
      ensures s'.procs[r].inode != s'.procs[q].inode
    {
      assert r != p && r in s.procs && IsOwner(s, q);
    }
    forall r | r in s'.procs && s'.procs[r].Reclaiming? ensures s'.procs[r].inode < s'.nextInode {
      assert r != p && r in s.procs;
    }
  }

  lemma CreatesKeepsReadDead(s: State, s': State, p: Pid)
    requires ReadIsDead(s) && ReadIsOld(s) && Creates(s, s', p)
    ensures ReadIsDead(s') && ReadIsOld(s')
  {
    if s.file.Some? {
      PlainStepKeepsReadDead(s, s', p);
    }
  }

  lemma ChecksKeepsReadDead(s: State, s': State, p: Pid)
    requires Inv(s) && ReadIsDead(s) && ReadIsOld(s) && Checks(false, s, s', p)
    ensures ReadIsDead(s') && ReadIsOld(s')
  {
    if IsDoomed(s) {
      NoOwner(s);
      forall q ensures !IsOwner(s', q) {
        assert !IsOwner(s, q);
      }
    } else {
      PlainStepKeepsReadDead(s, s', p);
    }
  }

  lemma OthersKeepReadDead(s: State, s': State, others: set<Pid>)
    requires ReadIsDead(s) && ReadIsOld(s) && OthersChange(s, s', others)
    ensures ReadIsDead(s') && ReadIsOld(s')
  {
    assert forall q :: IsOwner(s', q) ==> IsOwner(s, q);
  }

  lemma ComesOrGoesKeepsReadDead(s: State, s': State, p: Pid)
    requires ReadIsDead(s) && ReadIsOld(s) && (Starts(s, s', p) || Crashes(s, s', p) || Reclaims(false, s, s', p))
    ensures ReadIsDead(s') && ReadIsOld(s')
  {
    PlainStepKeepsReadDead(s, s', p);
  }

  lemma OwnerKeepsReadDead(s: State, s': State, p: Pid)
    requires ReadIsDead(s) && ReadIsOld(s)
    requires Removes(s, s', p) || Disarms(s, s', p) || Writes(s, s', p, true) || Writes(s, s', p, false)
    ensures ReadIsDead(s') && ReadIsOld(s')
  {
    PlainStepKeepsReadDead(s, s', p);
  }

  lemma StepKeepsReadDead(s: State, s': State)
    requires Inv(s) && ReadIsDead(s) && ReadIsOld(s) && Next(false, s, s')
    ensures ReadIsDead(s') && ReadIsOld(s')
  {
    if p :| Starts(s, s', p) {
      ComesOrGoesKeepsReadDead(s, s', p);
    } else if p :| Crashes(s, s', p) {
      ComesOrGoesKeepsReadDead(s, s', p);
    } else if others :| OthersChange(s, s', others) {
      OthersKeepReadDead(s, s', others);
    } else if p :| Creates(s, s', p) {
      CreatesKeepsReadDead(s, s', p);
    } else if p, ok :| Writes(s, s', p, ok) {
      OwnerKeepsReadDead(s, s', p);
    } else if p :| Removes(s, s', p) {
      OwnerKeepsReadDead(s, s', p);
    } else if p :| Disarms(s, s', p) {
      OwnerKeepsReadDead(s, s', p);
    } else if p :| Checks(false, s, s', p) {
      ChecksKeepsReadDead(s, s', p);
    } else {
      var p :| Reclaims(false, s, s', p);
      ComesOrGoesKeepsReadDead(s, s', p);
    }
  }

  lemma ReadFileIsSpared(s: State, s': State)
    requires ReadIsDead(s)
    requires forall p :: Reclaims(false, s, s', p) && s.file.Some? ==> s.file.value.inode == s.procs[p].inode
    ensures !TakesLiveFile(s, s')
  {
    forall p, q | Reclaims(false, s, s', p) && s.file.Some? && IsOwner(s, q)
      ensures s.procs[q].inode != s.file.value.inode
    {
    }
  }

  lemma {:induction false} RunKeepsReadDead(run: seq<State>, k: nat)
    requires IsRun(false, run) && k < |run| && TakesWhatWasRead(run)
    ensures Inv(run[k]) && ReadIsDead(run[k]) && ReadIsOld(run[k])
  {
    if k > 0 {
      RunKeepsReadDead(run, k - 1);
      StepKeepsReadDead(run[k - 1], run[k]);
      ReadFileIsSpared(run[k - 1], run[k]);
      StepKeepsInv(false, run[k - 1], run[k]);
    }
  }

  /** So it is enough that each removal takes the file that was read. */
  lemma TakingWhatWasReadExcludes(run: seq<State>, k: nat)
    requires IsRun(false, run) && TakesWhatWasRead(run) && k < |run|
    ensures IsExclusive(run[k])
  {
    RunKeepsReadDead(run, k);
    InvIsExclusive(run[k]);
  }

  // ----- two holders without atomicity -----

  const LEFT: State := State(Some(File(0, Holder(DataOf(9)))), map[], {}, 1)

  /** A dead holder's file; processes 1 and 2 both find it so; 1 removes it, creates
      its own and holds the lock; 2 removes that and does the same. */
  function TwoHolders(): seq<State> {
    var s0 := LEFT;
    var s1 := Goto(s0, 1, Starting(false));
    var s2 := Goto(s1, 2, Starting(false));
    var s3 := Goto(s2, 1, Checking);
    var s4 := Goto(s3, 2, Checking);
    var s5 := Goto(s4, 1, Reclaiming(0));
    var s6 := Goto(s5, 2, Reclaiming(0));
    var s7 := Goto(s6, 1, Starting(true)).(file := None);
    var s8 := Goto(s7, 1, Writing(1)).(file := Some(File(1, Unreadable)), nextInode := 2);
    var s9 := Goto(s8, 1, Holding(1)).(file := Some(File(1, Holder(DataOf(1)))));
    var s10 := Goto(s9, 2, Starting(true)).(file := None);
    var s11 := Goto(s10, 2, Writing(2)).(file := Some(File(2, Unreadable)), nextInode := 3);
    var s12 := Goto(s11, 2, Holding(2)).(file := Some(File(2, Holder(DataOf(2)))));
    [s0, s1, s2, s3, s4, s5, s6, s7, s8, s9, s10, s11, s12]
  }

  lemma TwoHoldersSteps(i: nat)
    requires i < 12
    ensures Next(false, TwoHolders()[i], TwoHolders()[i + 1])
  {
    var run := TwoHolders();
    if i == 0 {
      assert Starts(run[0], run[1], 1);
    } else if i == 1 {
      assert Starts(run[1], run[2], 2);
    } else if i == 2 {
      assert Creates(run[2], run[3], 1);
    } else if i == 3 {
      assert Creates(run[3], run[4], 2);
    } else if i == 4 {
      assert Checks(false, run[4], run[5], 1);
    } else if i == 5 {
      assert Checks(false, run[5], run[6], 2);
    } else if i == 6 {
      assert Reclaims(false, run[6], run[7], 1);
    } else if i == 7 {
      assert Creates(run[7], run[8], 1);
    } else if i == 8 {
      assert Writes(run[8], run[9], 1, true);
    } else if i == 9 {
      assert Reclaims(false, run[9], run[10], 2);
    } else if i == 10 {
      assert Creates(run[10], run[11], 2);
    } else {
      assert Writes(run[11], run[12], 2, true);
    }
  }

  lemma TwoHoldersRun()
    ensures IsRun(false, TwoHolders())
    ensures var s := TwoHolders()[12]; IsHolding(s, 1) && IsHolding(s, 2) && !IsExclusive(s)
  {
    var run := TwoHolders();
    forall i, j | 0 <= i < |run| && j == i + 1 < |run| ensures Next(false, run[i], run[j]) {
      TwoHoldersSteps(i);
    }
    assert IsHolding(run[12], 1) && IsHolding(run[12], 2);
  }

  /** The lock excludes at every point of every run exactly when the reading of the
      holder and the removal of its file are one step. */
  lemma ExclusiveMeansAtomic(atomic: bool)
    ensures (forall run :: IsRun(atomic, run) ==> IsExclusive(run[|run| - 1])) <==> atomic
  {
    if atomic {
      forall run | IsRun(atomic, run) ensures IsExclusive(run[|run| - 1]) {
        RunKeepsInv(true, run, |run| - 1);
        InvIsExclusive(run[|run| - 1]);
      }
    } else {
      TwoHoldersRun();
      assert |TwoHolders()| == 13;
    }
  }
}
