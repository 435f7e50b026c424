/** The election manager as `_reload_prefixes` uses it: a log of `election_exit`
    calls, and the exits the reload diff must issue. */
module Election {
  import opened Common
  import opened Ascii
  import opened Prefixes

  /** The election a prefix's base belongs to: `{base = %02X%02X, type = meta1, ns}`. */
  function ExitName(p: Prefix, ns: string): SqlxName
  {
    SqlxName(FormatPrefix(p), Meta1Type, ns)
  }

  /** The exits owed after a load: one per updated prefix that the new directory
      no longer manages, in the order of the updated list. */
  function LostPrefixExits(updated: seq<Prefix>, dir: Directory, url: string, ns: string): seq<SqlxName>
    decreases |updated|
  {
    if updated == [] then []
    else
      var last := updated[|updated| - 1];
      LostPrefixExits(updated[..|updated| - 1], dir, url, ns)
        + (if Managed(dir, last, url) then [] else [ExitName(last, ns)])
  }

  /** The election manager, seen through `election_exit`: every call is logged, and
      `failures` says which names the manager answers with an error. */
  class ElectionManager {
    var exits: seq<SqlxName>
    const failures: map<SqlxName, Error>

    constructor (failures: map<SqlxName, Error>)
      ensures exits == [] && this.failures == failures
    {
      exits := [];
      this.failures := failures;
    }

    /** `election_exit`. */
    method Exit(n: SqlxName) returns (err: Option<Error>)
      modifies this
      ensures exits == old(exits) + [n]
      ensures err == if n in failures then Some(failures[n]) else None
    {
      exits := exits + [n];
      err := if n in failures then Some(failures[n]) else None;
    }
  }

  /** The exits for two stretches of the updated list are those of the first,
      then those of the second: exits follow the list order. */
  lemma {:induction false} LostPrefixExitsConcat(u: seq<Prefix>, v: seq<Prefix>, dir: Directory, url: string, ns: string)
    ensures LostPrefixExits(u + v, dir, url, ns) == LostPrefixExits(u, dir, url, ns) + LostPrefixExits(v, dir, url, ns)
    decreases |v|
  {
    if v == [] {
      assert u + v == u;
    } else {
      var v' := v[..|v| - 1];
      assert (u + v)[..|u + v| - 1] == u + v';
      assert (u + v)[|u + v| - 1] == v[|v| - 1];
      LostPrefixExitsConcat(u, v', dir, url, ns);
    }
  }

  /** Exactly one exit per occurrence of a lost prefix in the updated list, and
      none for a prefix the new directory still manages. */
  lemma {:induction false} LostPrefixExitsCount(updated: seq<Prefix>, dir: Directory, url: string, ns: string, p: Prefix)
    ensures multiset(LostPrefixExits(updated, dir, url, ns))[ExitName(p, ns)] ==
      if Managed(dir, p, url) then 0 else multiset(updated)[p]
    decreases |updated|
  {
    if updated != [] {
      var init, last := updated[..|updated| - 1], updated[|updated| - 1];
      LostPrefixExitsCount(init, dir, url, ns, p);
      assert updated == init + [last];
      FormatInjective(last, p);
    }
  }

  /** Every exit issued names the base, the meta1 type and the namespace of an
      updated prefix that is no longer managed, and every such prefix gets one. */
  lemma {:induction false} LostPrefixExitsMembers(updated: seq<Prefix>, dir: Directory, url: string, ns: string, e: SqlxName)
    ensures e in LostPrefixExits(updated, dir, url, ns) <==>
      exists j :: 0 <= j < |updated| && !Managed(dir, updated[j], url) && e == ExitName(updated[j], ns)
    decreases |updated|
  {
    if updated != [] {
      var init, last := updated[..|updated| - 1], updated[|updated| - 1];
      var lastLost := !Managed(dir, last, url);
      var tail := if lastLost then [ExitName(last, ns)] else [];
      assert LostPrefixExits(updated, dir, url, ns) == LostPrefixExits(init, dir, url, ns) + tail;
      LostPrefixExitsMembers(init, dir, url, ns, e);
      if exists j :: 0 <= j < |updated| && !Managed(dir, updated[j], url) && e == ExitName(updated[j], ns) {
        var j :| 0 <= j < |updated| && !Managed(dir, updated[j], url) && e == ExitName(updated[j], ns);
        if j < |init| {
          assert init[j] == updated[j];
          assert e in LostPrefixExits(init, dir, url, ns);
        } else {
          assert e in tail;
        }
      }
      if e in LostPrefixExits(init, dir, url, ns) {
        var j :| 0 <= j < |init| && !Managed(dir, init[j], url) && e == ExitName(init[j], ns);
        assert updated[j] == init[j];
      } else if e in tail {
        assert updated[|updated| - 1] == last;
      }
    }
  }

  /** Every exit is for the meta1 election of a 4-hex-digit base in the local namespace. */
  lemma {:induction false} LostPrefixExitsWellFormed(updated: seq<Prefix>, dir: Directory, url: string, ns: string)
    ensures forall k :: 0 <= k < |LostPrefixExits(updated, dir, url, ns)| ==>
      var e := LostPrefixExits(updated, dir, url, ns)[k];
      e.srvType == Meta1Type && e.ns == ns && IsHexa(e.base, 4)
    decreases |updated|
  {
    if updated != [] {
      LostPrefixExitsWellFormed(updated[..|updated| - 1], dir, url, ns);
      DecodeFormat(updated[|updated| - 1]);
    }
  }
}
