/** The meta1 server's prefix logic: the reload with election exits, the
    periodic reload task, peer resolution for a base name, and the startup
    retry that must succeed before the periodic tasks are registered. */
module Meta1Server {
  import opened Common
  import opened Ascii
  import opened PeerFilter
  import opened Prefixes
  import opened Election

  /** The periodic jobs `_post_config` registers on the reload task queue. */
  datatype Job = ReloadEventConfig | ReloadPolicies | ReloadLb | ReloadPrefixesJob

  datatype PeriodicTask = PeriodicTask(period: nat, job: Job)

  /** The registrations, in the order they are made. */
  const PeriodicTasks: seq<PeriodicTask> := [
    PeriodicTask(5, ReloadEventConfig),
    PeriodicTask(5, ReloadPolicies),
    PeriodicTask(11, ReloadLb),
    PeriodicTask(31, ReloadPrefixesJob)
  ]

  /** `g_prefix_error(&err, "Reload error: ")`: same code, message prefixed. */
  function ReloadError(e: Error): (r: Error)
    ensures r.code == e.code && HasPrefix(r.message, "Reload error: ")
    ensures r.message[|"Reload error: "|..] == e.message
  {
    Error(e.code, "Reload error: " + e.message)
  }

  const NotManagedError: Error := Error(ContainerNotFound, "Base not managed")

  /** The checks `_get_peers` makes before touching anything, in order: the
      first one that fails gives the error. */
  function CheckRequest(n: Option<SqlxName>, hasResultSlot: bool): (r: Option<Error>)
    ensures r.None? <==>
      n.Some? && hasResultSlot && HasPrefix(n.value.srvType, Meta1Type) && IsHexa(n.value.base, 4)
    ensures r.Some? ==> (r.value.code == InternalError <==> n.None? || !hasResultSlot)
    ensures r.Some? && r.value.code != InternalError ==> r.value.code == BadRequest
    ensures r.Some? && r.value.code == BadRequest ==>
      (r.value.message == "Invalid type name" <==> !HasPrefix(n.value.srvType, Meta1Type))
  {
    if n.None? || !hasResultSlot then Some(Error(InternalError, "BUG"))
    else if !HasPrefix(n.value.srvType, Meta1Type) then Some(Error(BadRequest, "Invalid type name"))
    else if !IsHexa(n.value.base, 4) then Some(Error(BadRequest, "Invalid base name"))
    else None
  }

  /** The answer for prefix `p` against directory `dir`: `filter_urls` of the
      lookup, with NULL reported as CODE_CONTAINER_NOTFOUND. */
  function Resolve(dir: Directory, p: Prefix, url: string): Result<seq<string>, Error>
  {
    var peers := Lookup(dir, p);
    var filtered := if peers.Some? then Filtered(peers.value, url) else None;
    if filtered.Some? then Success(filtered.value) else Failure(NotManagedError)
  }

  /** Resolution fails, with CODE_CONTAINER_NOTFOUND, exactly when the prefix is
      not managed locally (unmapped, or mapped without the local address); on
      success it gives every other peer of the prefix and never the local one. */
  lemma ResolveOutcome(dir: Directory, p: Prefix, url: string)
    ensures Resolve(dir, p, url).Failure? <==> !Managed(dir, p, url)
    ensures Resolve(dir, p, url).Failure? ==> Resolve(dir, p, url).error.code == ContainerNotFound
    ensures Resolve(dir, p, url).Success? ==>
      forall x :: x in Resolve(dir, p, url).value <==> x in dir[p] && !EqualsIgnoreCase(url, x)
  {
    if Managed(dir, p, url) {
      forall x ensures x in Resolve(dir, p, url).value <==> x in dir[p] && !EqualsIgnoreCase(url, x) {
        WithoutMembers(dir[p], url, x);
      }
    }
  }

  /** A lost prefix's exit name, read back as a base name by `_get_peers`,
      resolves to the same prefix and fails with CODE_CONTAINER_NOTFOUND. */
  lemma LostPrefixUnresolvable(dir: Directory, p: Prefix, url: string, ns: string)
    requires !Managed(dir, p, url)
    ensures CheckRequest(Some(ExitName(p, ns)), true).None?
    ensures Resolve(dir, DecodePrefix(ExitName(p, ns).base), url) == Failure(NotManagedError)
  {
    DecodeFormat(p);
    assert HasPrefix(Meta1Type, Meta1Type);
    ResolveOutcome(dir, p, url);
  }

  /** The index of the first successful load, if any. */
  function FirstLoaded(outcomes: seq<LoadOutcome>): (r: Option<nat>)
    ensures r.Some? ==> (r.value < |outcomes| && outcomes[r.value].Loaded? &&
      forall j :: 0 <= j < r.value ==> outcomes[j].LoadFailed?)
    ensures r.None? ==> forall j :: 0 <= j < |outcomes| ==> outcomes[j].LoadFailed?
  {
    if outcomes == [] then None
    else if outcomes[0].Loaded? then Some(0)
    else match FirstLoaded(outcomes[1..])
      case None => None
      case Some(k) => Some(k + 1)
  }

  /** The example of a node losing a prefix: `10.0.0.1:6000` serves base ABCD with
      one other peer; after a reload that drops it, one exit is owed for
      `{ABCD, meta1, NS1}` and the base no longer resolves. */
  lemma LostPrefixScenario()
    ensures Resolve(map[Prefix(0xAB, 0xCD) := ["10.0.0.1:6000", "10.0.0.2:6000"]],
                    DecodePrefix("ABCD"), "10.0.0.1:6000") == Success(["10.0.0.2:6000"])
    ensures LostPrefixExits([Prefix(0xAB, 0xCD)],
                            map[Prefix(0xAB, 0xCD) := ["10.0.0.2:6000", "10.0.0.3:6000"]],
                            "10.0.0.1:6000", "NS1") == [SqlxName("ABCD", "meta1", "NS1")]
    ensures Resolve(map[Prefix(0xAB, 0xCD) := ["10.0.0.2:6000", "10.0.0.3:6000"]],
                    Prefix(0xAB, 0xCD), "10.0.0.1:6000").Failure?
  {
    var self, a, b := "10.0.0.1:6000", "10.0.0.2:6000", "10.0.0.3:6000";
    var p := Prefix(0xAB, 0xCD);
    assert DecodePrefix("ABCD") == p;
    assert EqualsIgnoreCase(self, [self, a][0]);
    assert !EqualsIgnoreCase(self, a) by { assert ToLower(self)[7] != ToLower(a)[7]; }
    assert !EqualsIgnoreCase(self, b) by { assert ToLower(self)[7] != ToLower(b)[7]; }
    assert [self, a][..1] == [self];
    assert [self][..0] == [];
    assert Without([self], self) == [];
    assert Without([self, a], self) == [a];
    var dir1 := map[p := [a, b]];
    assert !Managed(dir1, p, self);
    assert FormatPrefix(p) == "ABCD";
    assert [p][..0] == [];
  }

  /** The meta1 service: its namespace and own address, the backend's prefix
      set, the election manager, and the periodic tasks registered so far. */
  class Server {
    const nsName: string
    const url: string
    const m1ps: PrefixesSet
    const em: ElectionManager
    var tasks: seq<PeriodicTask>

    constructor (nsName: string, url: string, m1ps: PrefixesSet, em: ElectionManager)
      ensures this.nsName == nsName && this.url == url
      ensures this.m1ps == m1ps && this.em == em
      ensures tasks == []
    {
      this.nsName := nsName;
      this.url := url;
      this.m1ps := m1ps;
      this.em := em;
      tasks := [];
    }

    /** `_reload_prefixes`: load, and unless this is the initial load, exit the
        election of every updated prefix that is no longer managed; exit errors
        are dropped and the reload succeeds whenever the load did. */
    method ReloadPrefixes(init: bool, outcome: LoadOutcome) returns (err: Option<Error>)
      modifies m1ps, em
      ensures m1ps.peers == AfterLoad(old(m1ps.peers), outcome)
      ensures outcome.LoadFailed? ==>
        err == Some(ReloadError(outcome.error)) && em.exits == old(em.exits)
      ensures outcome.Loaded? ==> (err.None? &&
        em.exits == old(em.exits) +
          (if init then [] else LostPrefixExits(outcome.updated, outcome.peers, url, nsName)))
    {
      var loadErr, updated := m1ps.Load(outcome);
      if loadErr.Some? {
        return Some(ReloadError(loadErr.value));
      }
      if !init {
        var e: Option<Error> := None;
        var i := 0;
        while i < |updated|
          invariant 0 <= i <= |updated|
          invariant m1ps.peers == outcome.peers
          invariant em.exits == old(em.exits) + LostPrefixExits(updated[..i], m1ps.peers, url, nsName)
        {
          var prefix := updated[i];
          var name := FormatPrefix(prefix);
          assert updated[..i + 1][..i] == updated[..i];
          if m1ps.IsManaged(prefix, url) {
            if e.Some? {
              e := None;
            }
          } else {
            e := em.Exit(SqlxName(name, Meta1Type, nsName));
            if e.Some? {
              e := None;
            }
          }
          i := i + 1;
        }
        assert updated[..i] == updated;
      }
      return None;
    }

    /** `_task_reload_prefixes`: the periodic, non-initial reload; its error is only logged. */
    method TaskReloadPrefixes(outcome: LoadOutcome)
      modifies m1ps, em
      ensures m1ps.peers == AfterLoad(old(m1ps.peers), outcome)
      ensures em.exits == old(em.exits) +
        (if outcome.Loaded? then LostPrefixExits(outcome.updated, outcome.peers, url, nsName) else [])
    {
      var err := ReloadPrefixes(false, outcome);
    }

    /** `_get_peers`: validate the name, decode its base into a container id,
        optionally reload first (ignoring the reload's result), then answer with
        the prefix's peers other than the local address. `refresh` is what the
        directory service answers if `nocache` asks for a reload. */
    method GetPeers(n: Option<SqlxName>, hasResultSlot: bool, nocache: bool, refresh: LoadOutcome)
      returns (r: Result<seq<string>, Error>)
      modifies m1ps, em
      ensures CheckRequest(n, hasResultSlot).Some? ==>
        r == Failure(CheckRequest(n, hasResultSlot).value) &&
        m1ps.peers == old(m1ps.peers) && em.exits == old(em.exits)
      ensures CheckRequest(n, hasResultSlot).None? ==>
        m1ps.peers == (if nocache then AfterLoad(old(m1ps.peers), refresh) else old(m1ps.peers)) &&
        em.exits == old(em.exits) +
          (if nocache && refresh.Loaded? then LostPrefixExits(refresh.updated, refresh.peers, url, nsName) else []) &&
        r == Resolve(m1ps.peers, DecodePrefix(n.value.base), url)
      ensures CheckRequest(n, hasResultSlot).None? && (!nocache || refresh.LoadFailed?) ==>
        r == Resolve(old(m1ps.peers), DecodePrefix(n.value.base), url)
    {
      if n.None? || !hasResultSlot {
        return Failure(Error(InternalError, "BUG"));
      }
      if !HasPrefix(n.value.srvType, Meta1Type) {
        return Failure(Error(BadRequest, "Invalid type name"));
      }
      if !IsHexa(n.value.base, 4) {
        return Failure(Error(BadRequest, "Invalid base name"));
      }

      var cid := DecodeContainerId(n.value.base);

      if nocache {
        var ignored := ReloadPrefixes(false, refresh);
      }

      var peers := m1ps.GetPeers(cid);
      var filtered := FilterUrlsAndClean(peers, url);
      if filtered.None? {
        return Failure(NotManagedError);
      }
      return Success(filtered.value);
    }

    /** The prefix part of `_post_config`: retry the initial reload until one
        succeeds, and only then register the periodic tasks. `outcomes` are the
        directory service's successive answers; when it runs out without a
        success the service is still not ready. */
    method PostConfig(outcomes: seq<LoadOutcome>) returns (ready: bool, attempts: nat)
      modifies this, m1ps, em
      ensures ready <==> FirstLoaded(outcomes).Some?
      ensures ready ==>
        attempts == FirstLoaded(outcomes).value + 1 &&
        m1ps.peers == outcomes[attempts - 1].peers &&
        tasks == old(tasks) + PeriodicTasks
      ensures !ready ==>
        attempts == |outcomes| && m1ps.peers == old(m1ps.peers) && tasks == old(tasks)
      ensures em.exits == old(em.exits)
    {
      var done := false;
      attempts := 0;
      while !done && attempts < |outcomes|
        invariant 0 <= attempts <= |outcomes|
        invariant !done ==> forall j :: 0 <= j < attempts ==> outcomes[j].LoadFailed?
        invariant !done ==> m1ps.peers == old(m1ps.peers)
        invariant done ==> (attempts >= 1 && outcomes[attempts - 1].Loaded? &&
          m1ps.peers == outcomes[attempts - 1].peers &&
          forall j :: 0 <= j < attempts - 1 ==> outcomes[j].LoadFailed?)
        invariant tasks == old(tasks)
        invariant em.exits == old(em.exits)
      {
        var err := ReloadPrefixes(true, outcomes[attempts]);
        attempts := attempts + 1;
        if err.None? {
          done := true;
        }
      }
      ready := done;
      if ready {
        FirstLoadedIsFirst(outcomes, attempts - 1);
        tasks := tasks + PeriodicTasks;
      }
    }
  }

  /** An index whose outcome is the first success is the one `FirstLoaded` finds. */
  lemma {:induction false} FirstLoadedIsFirst(outcomes: seq<LoadOutcome>, k: nat)
    requires k < |outcomes| && outcomes[k].Loaded?
    requires forall j :: 0 <= j < k ==> outcomes[j].LoadFailed?
    ensures FirstLoaded(outcomes) == Some(k)
  {
    if k > 0 {
      FirstLoadedIsFirst(outcomes[1..], k - 1);
    }
  }

  /** `memset` a container id to zero, then store the two bytes the base name's
      hex digit pairs stand for. */
  method DecodeContainerId(base: string) returns (cid: seq<byte>)
    requires IsHexa(base, 4)
    ensures |cid| == ContainerIdLength
    ensures PrefixOf(cid) == DecodePrefix(base)
    ensures cid[0] as int == 16 * HexDigitValue(base[0]) + HexDigitValue(base[1])
    ensures cid[1] as int == 16 * HexDigitValue(base[2]) + HexDigitValue(base[3])
    ensures forall i :: 2 <= i < |cid| ==> cid[i] == 0
  {
    var a := new byte[ContainerIdLength](_ => 0);
    a[0] := HexPairValue(base[0], base[1]);
    a[1] := HexPairValue(base[2], base[3]);
    cid := a[..];
  }
}
