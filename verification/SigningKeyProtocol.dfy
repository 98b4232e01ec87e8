/** Publish-once signing keys (integrity.py): any number of callers racing over one directory. */
module SigningKeyProtocol {
  import opened Wrappers
  import opened Bytes

  type SecretKey = nat
  type Inode = nat
  type Caller = nat

  /** The key library: a PKCS#8 serialiser and its parser. */
  datatype Library = Library(pem: SecretKey -> bytes, parse: bytes -> Option<SecretKey>)

  ghost predicate RoundTrips(lib: Library) {
    forall k: SecretKey :: lib.parse(lib.pem(k)) == Some(k)
  }

  /** Names point at inodes: `published` is the key path, `temps` the callers' private names. */
  datatype Disk = Disk(inodes: map<Inode, bytes>, published: Option<Inode>, temps: map<Caller, Inode>)

  datatype Outcome = Won(key: SecretKey) | Lost | Broken

  datatype Pc =
    | Reading
    | Opened(inode: Inode)
    | Parsing(content: bytes)
    | Generating
    | Creating(key: SecretKey)
    | Writing(key: SecretKey, inode: Inode, written: nat)
    | Linking(key: SecretKey, inode: Inode)
    | Unlinking(inode: Inode, outcome: Outcome)
    | Returned(key: SecretKey)
    | IoError
    | BadKey
    | NotCreated
    | Crashed

  /** `attempt` counts completed loop iterations; 2 means the read after the loop. */
  datatype Process = Process(pc: Pc, attempt: nat, lookups: nat, initialPem: Option<bytes>)

  datatype State = State(disk: Disk, callers: map<Caller, Process>)

  predicate Done(pc: Pc) {
    pc.Returned? || pc.IoError? || pc.BadKey? || pc.NotCreated? || pc.Crashed?
  }

  ghost predicate Init(s: State) {
    && s.disk.temps == map[]
    && (s.disk.published.Some? ==> s.disk.published.value in s.disk.inodes)
    && forall p :: p in s.callers ==>
      s.callers[p].pc == Reading && s.callers[p].attempt == 0 && s.callers[p].lookups == 0
  }

  // ---- The steps one caller can take ----

  predicate ReadStep(d: Disk, d': Disk, c: Process, c': Process) {
    && c.pc.Reading? && d' == d
    && c' == c.(lookups := c.lookups + 1,
                pc := if d.published.Some? then Opened(d.published.value)
                      else if c.attempt < 2 then Generating else NotCreated)
  }

  predicate ReadAllStep(d: Disk, d': Disk, c: Process, c': Process) {
    && c.pc.Opened? && d' == d && c.pc.inode in d.inodes
    && c' == c.(pc := Parsing(d.inodes[c.pc.inode]))
  }

  predicate ParseStep(lib: Library, d: Disk, d': Disk, c: Process, c': Process) {
    && c.pc.Parsing? && d' == d
    && c' == c.(pc := match lib.parse(c.pc.content) case Some(k) => Returned(k) case None => BadKey)
  }

  ghost predicate GenerateStep(lib: Library, d: Disk, d': Disk, c: Process, c': Process) {
    && c.pc.Generating? && d' == d
    && if c.initialPem.Some? then
         c' == c.(pc := match lib.parse(c.initialPem.value) case Some(k) => Creating(k) case None => BadKey)
       else
         exists k :: c' == c.(pc := Creating(k))
  }

  ghost predicate CreateStep(d: Disk, d': Disk, c: Process, c': Process, p: Caller) {
    && c.pc.Creating?
    && exists i: Inode ::
         && i !in d.inodes
         && d' == d.(inodes := d.inodes[i := []], temps := d.temps[p := i])
         && c' == c.(pc := Writing(c.pc.key, i, 0))
  }

  ghost predicate WriteStep(lib: Library, d: Disk, d': Disk, c: Process, c': Process) {
    && c.pc.Writing?
    && var content := lib.pem(c.pc.key);
    if c.pc.written >= |content| then
      d' == d && c' == c.(pc := Linking(c.pc.key, c.pc.inode))
    else
      exists n :: c.pc.written < n <= |content|
        && d' == d.(inodes := d.inodes[c.pc.inode := content[..n]])
        && c' == c.(pc := c.pc.(written := n))
  }

  /** `os.link` is atomic and refuses an existing name. */
  predicate LinkStep(d: Disk, d': Disk, c: Process, c': Process) {
    && c.pc.Linking?
    && if d.published.None? then
         && d' == d.(published := Some(c.pc.inode))
         && c' == c.(pc := Unlinking(c.pc.inode, Won(c.pc.key)))
       else
         d' == d && c' == c.(pc := Unlinking(c.pc.inode, Lost))
  }

  /** The `finally` unlink, which may itself fail and leave an orphan. */
  predicate UnlinkStep(d: Disk, d': Disk, c: Process, c': Process, p: Caller) {
    && c.pc.Unlinking?
    && (d' == d || d' == d.(temps := d.temps - {p}))
    && c' == match c.pc.outcome
       case Won(k) => c.(pc := Returned(k))
       case Lost => c.(pc := Reading, attempt := c.attempt + 1)
       case Broken => c.(pc := IoError)
  }

  /** Any system call may fail; a failure after `mkstemp` still runs the unlink. */
  predicate FailStep(d: Disk, d': Disk, c: Process, c': Process) {
    && d' == d
    && match c.pc
       case Writing(_, i, _) => c' == c.(pc := Unlinking(i, Broken))
       case Linking(_, i) => c' == c.(pc := Unlinking(i, Broken))
       case Reading => c' == c.(lookups := c.lookups + 1, pc := IoError)
       case Opened(_) => c' == c.(pc := IoError)
       case Creating(_) => c' == c.(pc := IoError)
       case _ => false
  }

  predicate CrashStep(d: Disk, d': Disk, c: Process, c': Process) {
    !Done(c.pc) && d' == d && c' == c.(pc := Crashed)
  }

  ghost predicate Step(lib: Library, d: Disk, d': Disk, c: Process, c': Process, p: Caller) {
    || ReadStep(d, d', c, c')
    || ReadAllStep(d, d', c, c')
    || ParseStep(lib, d, d', c, c')
    || GenerateStep(lib, d, d', c, c')
    || CreateStep(d, d', c, c', p)
    || WriteStep(lib, d, d', c, c')
    || LinkStep(d, d', c, c')
    || UnlinkStep(d, d', c, c', p)
    || FailStep(d, d', c, c')
    || CrashStep(d, d', c, c')
  }

  /** One caller moves; everyone else stands still. */
  ghost predicate NextBy(lib: Library, s: State, s': State, p: Caller) {
    && p in s.callers && s'.callers.Keys == s.callers.Keys
    && Step(lib, s.disk, s'.disk, s.callers[p], s'.callers[p], p)
    && forall q :: q in s.callers && q != p ==> s'.callers[q] == s.callers[q]
  }

  ghost predicate Next(lib: Library, s: State, s': State) {
    exists p :: NextBy(lib, s, s', p)
  }

  ghost predicate Run(lib: Library, trace: seq<State>) {
    && trace != [] && Init(trace[0])
    && forall i :: 0 <= i < |trace| - 1 ==> StepAt(lib, trace, i)
  }

  ghost predicate StepAt(lib: Library, trace: seq<State>, i: nat)
    requires i + 1 < |trace|
  {
    Next(lib, trace[i], trace[i + 1])
  }

  // ---- The invariant ----

  predicate Owns(pc: Pc, i: Inode) {
    (pc.Writing? || pc.Linking?) && pc.inode == i
  }

  predicate Holds(lib: Library, d: Disk, key: SecretKey) {
    d.published.Some? && d.published.value in d.inodes && lib.parse(d.inodes[d.published.value]) == Some(key)
  }

  /** What the program counter of one caller says about the disk. */
  predicate CallerInv(lib: Library, d: Disk, c: Process) {
    && c.attempt <= 1
    && (c.attempt == 1 ==> d.published.Some?)
    && match c.pc
       case Reading => c.lookups == c.attempt
       case Opened(i) => d.published == Some(i) && c.lookups <= 2
       case Parsing(content) => d.published.Some? && d.published.value in d.inodes
         && d.inodes[d.published.value] == content && c.lookups <= 2
       case Generating => c.attempt == 0 && c.lookups == 1
       case Creating(_) => c.attempt == 0 && c.lookups == 1
       case Writing(k, i, n) =>
         && c.attempt == 0 && c.lookups == 1 && d.published != Some(i) && i in d.inodes
         && n <= |lib.pem(k)| && d.inodes[i] == lib.pem(k)[..n]
       case Linking(k, i) =>
         c.attempt == 0 && c.lookups == 1 && d.published != Some(i) && i in d.inodes && d.inodes[i] == lib.pem(k)
       case Unlinking(i, Won(k)) => c.attempt == 0 && c.lookups == 1 && Holds(lib, d, k)
       case Unlinking(i, Lost) => c.attempt == 0 && c.lookups == 1 && d.published.Some?
       case Returned(k) => Holds(lib, d, k) && c.lookups <= 2
       case NotCreated => false
       case _ => c.lookups <= 2
  }

  /** The published bytes are whole: what was there at the start, or some caller's complete key. */
  ghost predicate Whole(lib: Library, start: Disk, d: Disk) {
    && (d.published.Some? ==> d.published.value in d.inodes)
    && (start.published.Some? ==> start.published.value in start.inodes && Kept(start, d))
    && (start.published.None? && d.published.Some? ==> exists k :: d.inodes[d.published.value] == lib.pem(k))
  }

  ghost predicate Inv(lib: Library, start: Disk, s: State) {
    && Whole(lib, start, s.disk)
    && (forall p :: p in s.callers ==> CallerInv(lib, s.disk, s.callers[p]))
    && (forall p, q, i ::
          p in s.callers && q in s.callers && p != q && Owns(s.callers[p].pc, i) ==> !Owns(s.callers[q].pc, i))
  }

  /** Published names and their bytes never move. */
  predicate Kept(d: Disk, d': Disk) {
    d.published.Some? && d.published.value in d.inodes ==>
      d'.published == d.published && d.published.value in d'.inodes
        && d'.inodes[d.published.value] == d.inodes[d.published.value]
  }

  lemma InitInv(lib: Library, s: State)
    requires Init(s)
    ensures Inv(lib, s.disk, s)
  {
  }

  lemma StepKeeps(lib: Library, d: Disk, d': Disk, c: Process, c': Process, p: Caller)
    requires RoundTrips(lib) && CallerInv(lib, d, c) && Step(lib, d, d', c, c', p)
    requires d.published.Some? ==> d.published.value in d.inodes
    ensures CallerInv(lib, d', c') && Kept(d, d')
    ensures d'.published.Some? && d.published.None? ==> exists k :: d'.inodes[d'.published.value] == lib.pem(k)
  {
  }

  lemma OthersKeep(lib: Library, d: Disk, d': Disk, c: Process, c': Process, p: Caller, o: Process)
    requires CallerInv(lib, d, c) && CallerInv(lib, d, o) && Step(lib, d, d', c, c', p)
    requires d.published.Some? ==> d.published.value in d.inodes
    requires forall i :: Owns(c.pc, i) ==> !Owns(o.pc, i)
    ensures CallerInv(lib, d', o)
    ensures forall i :: Owns(c'.pc, i) ==> !Owns(o.pc, i)
  {
    assert c.pc.Writing? || c.pc.Linking? ==> Owns(c.pc, c.pc.inode);
    assert o.pc.Writing? || o.pc.Linking? ==> Owns(o.pc, o.pc.inode);
  }

  lemma NextKeeps(lib: Library, start: Disk, s: State, s': State)
    requires RoundTrips(lib) && Inv(lib, start, s) && Next(lib, s, s')
    ensures Inv(lib, start, s') && Kept(s.disk, s'.disk)
  {
    var p :| NextBy(lib, s, s', p);
    StepKeeps(lib, s.disk, s'.disk, s.callers[p], s'.callers[p], p);
    forall q | q in s.callers && q != p
      ensures CallerInv(lib, s'.disk, s'.callers[q])
      ensures forall i :: Owns(s'.callers[p].pc, i) ==> !Owns(s'.callers[q].pc, i)
    {
      OthersKeep(lib, s.disk, s'.disk, s.callers[p], s'.callers[p], p, s.callers[q]);
    }
  }

  // ---- Theorems about every run ----

  /** The invariant holds at every state of every interleaving. */
  lemma {:induction false} RunKeepsInv(lib: Library, trace: seq<State>, i: nat)
    requires RoundTrips(lib) && Run(lib, trace) && i < |trace|
    ensures Inv(lib, trace[0].disk, trace[i])
  {
    if i == 0 {
      InitInv(lib, trace[0]);
    } else {
      RunKeepsInv(lib, trace, i - 1);
      assert StepAt(lib, trace, i - 1);
      NextKeeps(lib, trace[0].disk, trace[i - 1], trace[i]);
    }
  }

  /** Set at most once, and never changed afterwards. */
  lemma {:induction false} PublishedForever(lib: Library, trace: seq<State>, i: nat, j: nat)
    requires RoundTrips(lib) && Run(lib, trace) && i <= j < |trace| && trace[i].disk.published.Some?
    ensures trace[i].disk.published.value in trace[i].disk.inodes && Kept(trace[i].disk, trace[j].disk)
    decreases j
  {
    RunKeepsInv(lib, trace, i);
    if i < j {
      PublishedForever(lib, trace, i, j - 1);
      RunKeepsInv(lib, trace, j - 1);
      assert StepAt(lib, trace, j - 1);
      NextKeeps(lib, trace[0].disk, trace[j - 1], trace[j]);
    }
  }

  /** Never partial: on a fresh path, whatever is published is one caller's complete key. */
  lemma PublishedWhole(lib: Library, trace: seq<State>, i: nat) returns (key: SecretKey)
    requires RoundTrips(lib) && Run(lib, trace) && i < |trace|
    requires trace[0].disk.published.None? && trace[i].disk.published.Some?
    ensures trace[i].disk.published.value in trace[i].disk.inodes
    ensures trace[i].disk.inodes[trace[i].disk.published.value] == lib.pem(key)
  {
    RunKeepsInv(lib, trace, i);
    key :| trace[i].disk.inodes[trace[i].disk.published.value] == lib.pem(key);
  }

  /** Every two callers that return, at whatever time, hold one key: the published one, then and later. */
  lemma ReturnedKeysAgree(lib: Library, trace: seq<State>, i: nat, p: Caller, j: nat, q: Caller)
    requires RoundTrips(lib) && Run(lib, trace) && i <= j < |trace|
    requires p in trace[i].callers && trace[i].callers[p].pc.Returned?
    requires q in trace[j].callers && trace[j].callers[q].pc.Returned?
    ensures trace[i].callers[p].pc.key == trace[j].callers[q].pc.key
    ensures Holds(lib, trace[j].disk, trace[i].callers[p].pc.key)
  {
    RunKeepsInv(lib, trace, i);
    RunKeepsInv(lib, trace, j);
    assert CallerInv(lib, trace[i].disk, trace[i].callers[p]);
    assert CallerInv(lib, trace[j].disk, trace[j].callers[q]);
    PublishedForever(lib, trace, i, j);
  }

  /** Nobody looks a third time, so the read after the loop and its error are unreachable. */
  lemma AtMostTwoLookups(lib: Library, trace: seq<State>, i: nat, p: Caller)
    requires RoundTrips(lib) && Run(lib, trace) && i < |trace| && p in trace[i].callers
    ensures var c := trace[i].callers[p];
      c.lookups <= 2 && !c.pc.NotCreated? && (c.pc.Reading? ==> c.attempt < 2)
  {
    RunKeepsInv(lib, trace, i);
    assert CallerInv(lib, trace[i].disk, trace[i].callers[p]);
  }

  // ---- Whose key it is ----

  /** A caller may publish `k`: it brought no key of its own, or that very key. */
  predicate MayPublish(lib: Library, initialPem: Option<bytes>, k: SecretKey) {
    initialPem.None? || lib.parse(initialPem.value) == Some(k)
  }

  predicate HasKey(pc: Pc) {
    pc.Creating? || pc.Writing? || pc.Linking?
  }

  /** Some caller published its own complete key. */
  ghost predicate PublishedBy(lib: Library, s: State, p: Caller, k: SecretKey) {
    && p in s.callers && MayPublish(lib, s.callers[p].initialPem, k)
    && s.disk.published.Some? && s.disk.published.value in s.disk.inodes
    && s.disk.inodes[s.disk.published.value] == lib.pem(k)
  }

  /** No caller's key is replaced on the way to the disk. */
  ghost predicate Provenance(lib: Library, start: State, s: State) {
    && s.callers.Keys == start.callers.Keys
    && (forall p :: p in s.callers ==> s.callers[p].initialPem == start.callers[p].initialPem)
    && (forall p :: p in s.callers && HasKey(s.callers[p].pc) ==>
          MayPublish(lib, s.callers[p].initialPem, s.callers[p].pc.key))
    && (s.disk.published.Some? ==> exists p, k :: PublishedBy(lib, s, p, k))
  }

  /** What one step does to the key in hand and to the published file. */
  lemma StepKeepsKey(lib: Library, d: Disk, d': Disk, c: Process, c': Process, p: Caller)
    requires CallerInv(lib, d, c) && Step(lib, d, d', c, c', p)
    requires HasKey(c.pc) ==> MayPublish(lib, c.initialPem, c.pc.key)
    ensures c'.initialPem == c.initialPem
    ensures HasKey(c'.pc) ==> MayPublish(lib, c'.initialPem, c'.pc.key)
    ensures d.published.None? && d'.published.Some? ==>
      HasKey(c.pc) && d'.published.value in d'.inodes && d'.inodes[d'.published.value] == lib.pem(c.pc.key)
  {
  }

  lemma ProvenanceNext(lib: Library, start: State, s: State, s': State)
    requires RoundTrips(lib) && Inv(lib, start.disk, s) && Provenance(lib, start, s) && Next(lib, s, s')
    ensures Provenance(lib, start, s')
  {
    var p :| NextBy(lib, s, s', p);
    NextKeeps(lib, start.disk, s, s');
    StepKeepsKey(lib, s.disk, s'.disk, s.callers[p], s'.callers[p], p);
    if s.disk.published.Some? {
      var q, k :| PublishedBy(lib, s, q, k);
      assert PublishedBy(lib, s', q, k);
    } else if s'.disk.published.Some? {
      assert PublishedBy(lib, s', p, s.callers[p].pc.key);
    }
  }

  lemma {:induction false} RunKeepsProvenance(lib: Library, trace: seq<State>, i: nat)
    requires RoundTrips(lib) && Run(lib, trace) && i < |trace| && trace[0].disk.published.None?
    ensures Provenance(lib, trace[0], trace[i])
  {
    if i > 0 {
      RunKeepsProvenance(lib, trace, i - 1);
      RunKeepsInv(lib, trace, i - 1);
      assert StepAt(lib, trace, i - 1);
      ProvenanceNext(lib, trace[0], trace[i - 1], trace[i]);
    }
  }

  /** On a fresh path the published key is one its publisher was entitled to: fresh, or the one it was given. */
  lemma PublishedIsEntitled(lib: Library, trace: seq<State>, i: nat) returns (p: Caller, k: SecretKey)
    requires RoundTrips(lib) && Run(lib, trace) && i < |trace|
    requires trace[0].disk.published.None? && trace[i].disk.published.Some?
    ensures p in trace[0].callers
      && (trace[0].callers[p].initialPem.Some? ==> lib.parse(trace[0].callers[p].initialPem.value) == Some(k))
    ensures trace[i].disk.published.value in trace[i].disk.inodes
      && trace[i].disk.inodes[trace[i].disk.published.value] == lib.pem(k)
  {
    RunKeepsProvenance(lib, trace, i);
    p, k :| PublishedBy(lib, trace[i], p, k);
  }

  /** Callers that all bring one existing key publish and return that key and no other: the identity survives the move
    * to this path. */
  lemma LegacyKeySurvives(lib: Library, trace: seq<State>, i: nat, pem: bytes, legacy: SecretKey)
    requires RoundTrips(lib) && Run(lib, trace) && i < |trace| && trace[0].disk.published.None?
    requires lib.parse(pem) == Some(legacy)
    requires forall p :: p in trace[0].callers ==> trace[0].callers[p].initialPem == Some(pem)
    ensures trace[i].disk.published.Some? ==>
      trace[i].disk.published.value in trace[i].disk.inodes
      && trace[i].disk.inodes[trace[i].disk.published.value] == lib.pem(legacy)
    ensures forall p :: p in trace[i].callers && trace[i].callers[p].pc.Returned? ==>
      trace[i].callers[p].pc.key == legacy
  {
    RunKeepsInv(lib, trace, i);
    if trace[i].disk.published.Some? {
      var q, k := PublishedIsEntitled(lib, trace, i);
    }
    forall p | p in trace[i].callers && trace[i].callers[p].pc.Returned?
      ensures trace[i].callers[p].pc.key == legacy
    {
      assert CallerInv(lib, trace[i].disk, trace[i].callers[p]);
    }
  }

  // ---- No caller is ever stuck ----

  lemma {:induction false} FreshInode(used: set<Inode>) returns (i: Inode)
    ensures forall j :: j in used ==> j < i
  {
    if used == {} {
      i := 0;
    } else {
      var j :| j in used;
      var rest := FreshInode(used - {j});
      assert forall x :: x in used ==> x == j || x in used - {j};
      i := if rest <= j then j + 1 else rest;
    }
  }

  /** A step that is neither a failing system call nor a crash. */
  ghost predicate Proceeds(lib: Library, d: Disk, d': Disk, c: Process, c': Process, p: Caller) {
    || ReadStep(d, d', c, c') || ReadAllStep(d, d', c, c') || ParseStep(lib, d, d', c, c')
    || GenerateStep(lib, d, d', c, c') || CreateStep(d, d', c, c', p) || WriteStep(lib, d, d', c, c')
    || LinkStep(d, d', c, c') || UnlinkStep(d, d', c, c', p)
  }

  lemma Unstuck(lib: Library, d: Disk, c: Process, p: Caller) returns (d': Disk, c': Process)
    requires CallerInv(lib, d, c) && !Done(c.pc) && (d.published.Some? ==> d.published.value in d.inodes)
    ensures Proceeds(lib, d, d', c, c', p)
  {
    d', c' := d, c;
    match c.pc
    case Reading =>
      c' := c.(lookups := c.lookups + 1,
               pc := if d.published.Some? then Opened(d.published.value) else Generating);
    case Opened(i) => c' := c.(pc := Parsing(d.inodes[i]));
    case Parsing(content) => c' := c.(pc := match lib.parse(content) case Some(k) => Returned(k) case None => BadKey);
    case Generating =>
      c' := c.(pc := if c.initialPem.None? then Creating(0)
                     else match lib.parse(c.initialPem.value) case Some(k) => Creating(k) case None => BadKey);
    case Creating(k) =>
      var i := FreshInode(d.inodes.Keys);
      d' := d.(inodes := d.inodes[i := []], temps := d.temps[p := i]);
      c' := c.(pc := Writing(k, i, 0));
    case Writing(k, i, n) =>
      var content := lib.pem(k);
      if n >= |content| {
        c' := c.(pc := Linking(k, i));
      } else {
        d' := d.(inodes := d.inodes[i := content[..|content|]]);
        c' := c.(pc := c.pc.(written := |content|));
      }
    case Linking(k, i) =>
      if d.published.None? {
        d' := d.(published := Some(i));
        c' := c.(pc := Unlinking(i, Won(k)));
      } else {
        c' := c.(pc := Unlinking(i, Lost));
      }
    case Unlinking(i, outcome) =>
      c' := match outcome
        case Won(k) => c.(pc := Returned(k))
        case Lost => c.(pc := Reading, attempt := c.attempt + 1)
        case Broken => c.(pc := IoError);
  }

  /** Wherever a run stands, a caller that has not finished can go on without any failure; with the measure below, it
    * finishes unless it is never scheduled. */
  lemma CallersProceed(lib: Library, trace: seq<State>, i: nat, p: Caller)
    requires RoundTrips(lib) && Run(lib, trace) && i < |trace|
    requires p in trace[i].callers && !Done(trace[i].callers[p].pc)
    ensures exists d', c' :: Proceeds(lib, trace[i].disk, d', trace[i].callers[p], c', p)
  {
    RunKeepsInv(lib, trace, i);
    assert CallerInv(lib, trace[i].disk, trace[i].callers[p]);
    var d', c' := Unstuck(lib, trace[i].disk, trace[i].callers[p], p);
  }

  /** The state after one caller's step. */
  function Stepped(s: State, d': Disk, c': Process, p: Caller): State {
    State(d', s.callers[p := c'])
  }

  /** Any caller may go on at any moment, whatever the others do. */
  lemma GoingOnHappens(lib: Library, s: State, d': Disk, c': Process, p: Caller)
    requires p in s.callers && Proceeds(lib, s.disk, d', s.callers[p], c', p)
    ensures Next(lib, s, Stepped(s, d', c', p))
  {
    assert NextBy(lib, s, Stepped(s, d', c', p), p);
  }

  /** Any caller may crash at any moment before it is done. */
  lemma CrashHappens(lib: Library, s: State, p: Caller)
    requires p in s.callers && !Done(s.callers[p].pc)
    ensures Next(lib, s, Stepped(s, s.disk, s.callers[p].(pc := Crashed), p))
  {
    assert NextBy(lib, s, Stepped(s, s.disk, s.callers[p].(pc := Crashed), p), p);
  }

  /** And any system call may fail: while the temporary exists it is still unlinked, otherwise the caller raises. */
  lemma FailureHappens(lib: Library, s: State, p: Caller)
    requires p in s.callers
    ensures var c := s.callers[p];
      && (c.pc.Reading? ==> Next(lib, s, Stepped(s, s.disk, c.(lookups := c.lookups + 1, pc := IoError), p)))
      && (c.pc.Opened? || c.pc.Creating? ==> Next(lib, s, Stepped(s, s.disk, c.(pc := IoError), p)))
      && (c.pc.Writing? || c.pc.Linking? ==>
            Next(lib, s, Stepped(s, s.disk, c.(pc := Unlinking(c.pc.inode, Broken)), p)))
  {
    var c := s.callers[p];
    if c.pc.Reading? {
      assert NextBy(lib, s, Stepped(s, s.disk, c.(lookups := c.lookups + 1, pc := IoError), p), p);
    } else if c.pc.Opened? || c.pc.Creating? {
      assert NextBy(lib, s, Stepped(s, s.disk, c.(pc := IoError), p), p);
    } else if c.pc.Writing? || c.pc.Linking? {
      assert NextBy(lib, s, Stepped(s, s.disk, c.(pc := Unlinking(c.pc.inode, Broken)), p), p);
    }
  }

  /** Every step a caller can take continues a run. */
  lemma RunExtends(lib: Library, trace: seq<State>, s: State)
    requires Run(lib, trace) && Next(lib, trace[|trace| - 1], s)
    ensures Run(lib, trace + [s])
  {
    var longer := trace + [s];
    forall i | 0 <= i < |longer| - 1 ensures StepAt(lib, longer, i) {
      assert i + 1 < |trace| ==> StepAt(lib, trace, i);
    }
  }

  // ---- Every caller finishes, however the others are scheduled ----

  function Stage(pc: Pc): nat {
    match pc
    case Reading => 8
    case Opened(_) => 2
    case Parsing(_) => 1
    case Generating => 7
    case Creating(_) => 6
    case Writing(_, _, _) => 5
    case Linking(_, _) => 4
    case Unlinking(_, _) => 3
    case _ => 0
  }

  function Remaining(lib: Library, pc: Pc): int {
    if pc.Writing? then |lib.pem(pc.key)| - pc.written else 0
  }

  /** Lexicographic: fewer attempts left, a later stage, fewer bytes to write. */
  predicate Closer(lib: Library, c: Process, c': Process) {
    || c'.attempt > c.attempt
    || (c'.attempt == c.attempt && Stage(c'.pc) < Stage(c.pc))
    || (c'.attempt == c.attempt && Stage(c'.pc) == Stage(c.pc) && Remaining(lib, c'.pc) < Remaining(lib, c.pc))
  }

  /** Each step of a caller brings it closer to its end, and attempts and bytes are bounded. */
  lemma StepsBringCallerCloser(lib: Library, trace: seq<State>, i: nat, p: Caller)
    requires RoundTrips(lib) && Run(lib, trace) && i + 1 < |trace|
    requires NextBy(lib, trace[i], trace[i + 1], p)
    ensures var c, c' := trace[i].callers[p], trace[i + 1].callers[p];
      Closer(lib, c, c') && c'.attempt <= 1 && 0 <= Remaining(lib, c'.pc)
  {
    RunKeepsInv(lib, trace, i);
    RunKeepsInv(lib, trace, i + 1);
    assert CallerInv(lib, trace[i].disk, trace[i].callers[p]);
    assert CallerInv(lib, trace[i + 1].disk, trace[i + 1].callers[p]);
  }

  // ---- The retry loop itself, run against arbitrary other callers ----

  lemma PemParses(lib: Library, key: SecretKey)
    requires RoundTrips(lib)
    ensures lib.parse(lib.pem(key)) == Some(key)
  {
  }

  datatype LoadError = UnreadableKey | UnreadableInitialPem | FileNotFound

  /** The key path as one caller sees it. */
  class KeyPath {
    var content: Option<bytes>

    constructor ()
      ensures content == None
    {
      content := None;
    }

    /** Other callers: by the theorems above they publish at most once and change nothing. */
    method Interfere() returns (ghost published: bool)
      modifies this
      ensures if published then old(content).None? && content.Some? else content == old(content)
    {
      published := false;
      if * {
        if content.None? {
          var pem: bytes := *;
          content, published := Some(pem), true;
        }
      }
    }

    /** `_write_private_file` once the temporary is flushed: true when this caller's link won. */
    method Link(pem: bytes) returns (won: bool)
      modifies this
      ensures won <==> old(content).None?
      ensures content == if won then Some(pem) else old(content)
    {
      won := content.None?;
      if won {
        content := Some(pem);
      }
    }

    /** `SigningKey.load_or_create`; `won` is whether this caller's link won, `others` whether another caller published
      * meanwhile. */
    method LoadOrCreate(lib: Library, initialPem: Option<bytes>)
      returns (r: Result<SecretKey, LoadError>, ghost won: bool, ghost others: bool)
      requires RoundTrips(lib)
      modifies this
      ensures old(content).Some? ==> content == old(content)
      ensures r.Success? ==> content.Some? && lib.parse(content.value) == Some(r.value)
      ensures r == Failure(UnreadableKey) ==> content.Some? && lib.parse(content.value).None?
      ensures r == Failure(UnreadableInitialPem)
        ==> initialPem.Some? && lib.parse(initialPem.value).None? && old(content).None?
      ensures r != Failure(FileNotFound)
      ensures won ==> old(content).None? && r.Success? && content == Some(lib.pem(r.value))
      ensures won && initialPem.Some? ==> lib.parse(initialPem.value) == Some(r.value)
      ensures old(content).None? && !others ==>
        if initialPem.Some? && lib.parse(initialPem.value).None?
        then r == Failure(UnreadableInitialPem) && content.None? else won
    {
      won, others := false, false;
      for attempt := 0 to 2
        invariant old(content).Some? ==> content == old(content)
        invariant attempt > 0 ==> content.Some? && old(content).None? && others
        invariant attempt < 2 && !won
        invariant old(content).None? && !others ==> content.None?
      {
        ghost var before := Interfere();
        others := others || before;
        if content.Some? {
          match lib.parse(content.value)
          case Some(k) => return Success(k), won, others;
          case None => return Failure(UnreadableKey), won, others;
        }
        var key: SecretKey := *;
        if initialPem.Some? {
          match lib.parse(initialPem.value)
          case Some(k) => key := k;
          case None => return Failure(UnreadableInitialPem), won, others;
        }
        ghost var between := Interfere();
        others := others || between;
        var linked := Link(lib.pem(key));
        PemParses(lib, key);
        if linked {
          return Success(key), true, others;
        }
      }
      // The read after the loop would come here: the second attempt always finds the key.
      assert false;
    }
  }
}
