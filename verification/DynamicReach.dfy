/** Dynamic import discovery (pkg/caretaker/hub_dynamic.go: runDynamicReach; pkg/caretaker/dns.go:
    DynamicRecords).

    Each catalog update closes the listeners of services that vanished, binds listeners for services
    that appeared, and keeps the DNS overlay in step.  Binds may fail; names may collide once they are
    lower-cased for DNS.
 */
module DynamicReach {
  import opened Options

  type Name = string
  type IP = string
  type Listener = nat   // identity of a bound listener

  /** The bare canonical form of a name: lower case, no trailing dot. */
  type Canon = Name -> string

  /** The canonical forms of a set of names; Set ignores the empty one. */
  ghost function Image(canon: Canon, names: set<Name>): (r: set<string>)
    ensures forall k :: k in r <==> k != "" && exists n :: n in names && canon(n) == k
  {
    set n | n in names && canon(n) != "" :: canon(n)
  }

  /** The overlay, name -> address.  ip is None when it does not parse as an IPv4 address. */
  class DynamicRecords {
    const canon: Canon
    var m: map<string, IP>

    constructor (canon: Canon)
      ensures m == map[] && this.canon == canon
    {
      this.canon, m := canon, map[];
    }

    method Set(name: Name, ip: Option<IP>)
      modifies this
      ensures m == if ip.None? || canon(name) == "" then old(m) else old(m)[canon(name) := ip.value]
    {
      if ip.None? {
        return;
      }
      if canon(name) == "" {
        return;
      }
      m := m[canon(name) := ip.value];
    }

    method Remove(name: Name)
      modifies this
      ensures m == old(m) - {canon(name)}
    {
      m := m - {canon(name)};
    }
  }

  /** What the catalog asks of this spoke. */
  ghost predicate Desired(services: seq<Name>, skip: set<Name>, n: Name) {
    n in services && n != "" && n !in skip
  }

  /** Listeners are distinct, and none of them is closed. */
  ghost predicate ListenersOK(active: map<Name, Listener>, closed: set<Listener>, next: Listener, skip: set<Name>) {
    && (forall n :: n in active ==> n != "" && n !in skip && active[n] < next && active[n] !in closed)
    && (forall l :: l in closed ==> l < next)
    && (forall n, o :: n in active && o in active && active[n] == active[o] ==> n == o)
  }

  /** No name resolves to a dead address: every record is the address of an active name with that
      canonical form. */
  ghost predicate RecordsOK(canon: Canon, addr: Name -> IP, active: set<Name>, m: map<string, IP>) {
    && "" !in m
    && forall k :: k in m ==> exists n :: n in active && canon(n) == k && m[k] == addr(n)
  }

  lemma RemoveKeeps(canon: Canon, addr: Name -> IP, active: set<Name>, m: map<string, IP>, name: Name)
    requires RecordsOK(canon, addr, active, m)
    ensures RecordsOK(canon, addr, active - {name}, m - {canon(name)})
  {
    forall k | k in m - {canon(name)}
      ensures exists n :: n in active - {name} && canon(n) == k && (m - {canon(name)})[k] == addr(n)
    {
      var n :| n in active && canon(n) == k && m[k] == addr(n);
      assert n in active - {name};
    }
  }

  lemma SetKeeps(canon: Canon, addr: Name -> IP, active: set<Name>, m: map<string, IP>, name: Name,
                 now: map<string, IP>)
    requires RecordsOK(canon, addr, active, m)
    requires now == if canon(name) == "" then m else m[canon(name) := addr(name)]
    ensures RecordsOK(canon, addr, active + {name}, now)
  {
    forall k | k in now ensures exists n :: n in active + {name} && canon(n) == k && now[k] == addr(n) {
      if k == canon(name) && k != "" {
        assert name in active + {name};
      } else {
        var n :| n in active && canon(n) == k && m[k] == addr(n);
        assert n in active + {name};
      }
    }
  }

  /** The listeners that a set of names had. */
  ghost function Owned(active: map<Name, Listener>, names: set<Name>): (r: set<Listener>) {
    set n | n in active && n in names :: active[n]
  }

  lemma OwnedAdds(active: map<Name, Listener>, names: set<Name>, n: Name)
    requires n in active
    ensures Owned(active, names + {n}) == Owned(active, names) + {active[n]}
  {
  }

  lemma MinusAdds<K, V>(m: map<K, V>, keys: set<K>, k: K)
    ensures (m - keys) - {k} == m - (keys + {k})
  {
  }

  lemma ImageAdds(canon: Canon, names: set<Name>, more: set<Name>)
    ensures Image(canon, names + more) == Image(canon, names) + Image(canon, more)
  {
  }

  /** Removing a name's key is removing its image: "" is never a key. */
  lemma ImageMinus(canon: Canon, keys: set<string>, gone: set<Name>, n: Name)
    requires "" !in keys
    ensures (keys - Image(canon, gone)) - {canon(n)} == keys - Image(canon, gone + {n})
  {
  }

  /** Listeners that were there stay as they were; new ones are numbered from from. */
  ghost predicate Extends(was: map<Name, Listener>, active: map<Name, Listener>, from: Listener) {
    && (forall n :: n in was ==> n in active && active[n] == was[n])
    && (forall n :: n in active && n !in was ==> active[n] >= from)
  }

  lemma ExtendsAdds(was: map<Name, Listener>, active: map<Name, Listener>, from: Listener, n: Name, l: Listener)
    requires Extends(was, active, from) && n !in active && l >= from
    ensures Extends(was, active[n := l], from)
    ensures active[n := l].Keys - was.Keys == (active.Keys - was.Keys) + {n}
  {
  }

  class Reach {
    const skip: set<Name>              // own services and static reaches
    const addr: Name -> IP             // hub.SyntheticIP, always an IPv4 address
    const dns: DynamicRecords
    var active: map<Name, Listener>
    var closed: set<Listener>
    var next: Listener

    ghost predicate Valid()
      reads this, dns
    {
      && ListenersOK(active, closed, next, skip)
      && RecordsOK(dns.canon, addr, active.Keys, dns.m)
    }

    /** The overlay holds exactly the active names. */
    ghost predicate Exact()
      reads this, dns
    {
      dns.m.Keys == Image(dns.canon, active.Keys)
    }

    constructor (skip: set<Name>, addr: Name -> IP, dns: DynamicRecords)
      requires dns.m == map[]
      ensures Valid() && Exact() && active == map[] && this.skip == skip && this.dns == dns && this.addr == addr
    {
      this.skip, this.addr, this.dns := skip, addr, dns;
      active, closed, next := map[], {}, 0;
    }

    /** Close the listener and withdraw the record. */
    method Unbind(name: Name)
      requires Valid() && name in active
      modifies this, dns
      ensures Valid()
      ensures active == old(active) - {name} && closed == old(closed) + {old(active)[name]} && next == old(next)
      ensures dns.m == old(dns.m) - {dns.canon(name)}
    {
      hide RecordsOK;
      RemoveKeeps(dns.canon, addr, active.Keys, dns.m, name);
      closed := closed + {active[name]};
      dns.Remove(name);
      active := active - {name};
      assert active.Keys == old(active).Keys - {name};
    }

    /** A successful bind: listener first, then the record. */
    method Bind(name: Name)
      requires Valid() && name !in active && name != "" && name !in skip
      modifies this, dns
      ensures Valid()
      ensures active == old(active)[name := old(next)] && closed == old(closed) && next == old(next) + 1
      ensures dns.m.Keys == old(dns.m).Keys + Image(dns.canon, {name})
    {
      hide RecordsOK;
      dns.Set(name, Some(addr(name)));
      SetKeeps(dns.canon, addr, active.Keys, old(dns.m), name, dns.m);
      active := active[name := next];
      next := next + 1;
      assert active.Keys == old(active).Keys + {name};
    }

    /** One catalog update; binds says which binds succeed this time. */
    method Update(services: seq<Name>, binds: Name -> bool)
      requires Valid()
      modifies this, dns
      ensures Valid()
      // active is what was active and still desired, plus the desired that could be bound
      ensures forall n :: n in active <==>
                Desired(services, skip, n) && (n in old(active) || binds(n))
      // a listener that stays is not rebound; one that goes is closed; no other is
      ensures forall n :: n in active && n in old(active) ==> active[n] == old(active)[n]
      ensures forall n :: n in active && n !in old(active) ==> active[n] >= old(next)
      ensures closed == old(closed) + Owned(old(active), old(active).Keys - active.Keys)
      // records of vanished names are withdrawn, records of new ones added
      ensures dns.m.Keys == (old(dns.m).Keys - Image(dns.canon, old(active).Keys - active.Keys))
                            + Image(dns.canon, active.Keys - old(active).Keys)
      // so the overlay stays exactly the active names unless a vanished name shared its canonical form
      // with one that stays and no new name has it
      ensures old(Exact()) ==>
                (Exact() <==>
                 Image(dns.canon, old(active).Keys - active.Keys) * Image(dns.canon, old(active).Keys * active.Keys)
                 <= Image(dns.canon, active.Keys - old(active).Keys))
    {
      hide RecordsOK, Image, Owned, ListenersOK;
      var desired := set n | n in services && n != "" && n !in skip;
      DropVanished(desired);
      ghost var kept := active;
      BindNew(desired, binds);
      assert old(active).Keys - active.Keys == old(active).Keys - desired;
      assert active.Keys - old(active).Keys == active.Keys - kept.Keys;
      if old(Exact()) {
        OverlayExact(dns.canon, old(active).Keys, active.Keys, old(dns.m).Keys, dns.m.Keys);
      }
    }

    /** The first loop deletes from the map it ranges over. */
    method DropVanished(desired: set<Name>)
      requires Valid()
      modifies this, dns
      ensures Valid() && next == old(next)
      ensures active.Keys == old(active).Keys * desired
      ensures forall n :: n in active ==> active[n] == old(active)[n]
      ensures closed == old(closed) + Owned(old(active), old(active).Keys - desired)
      ensures dns.m.Keys == old(dns.m).Keys - Image(dns.canon, old(active).Keys - desired)
    {
      hide ListenersOK;
      assert "" !in dns.m;
      hide RecordsOK;
      var todo := active.Keys;
      ghost var gone: set<Name> := {};
      assert Image(dns.canon, gone) == {} && Owned(active, gone) == {} && active - gone == active;
      hide Image, Owned;
      while todo != {}
        invariant Valid() && next == old(next)
        invariant todo <= old(active).Keys
        invariant gone == old(active).Keys - todo - desired
        invariant active == old(active) - gone
        invariant closed == old(closed) + Owned(old(active), gone)
        invariant dns.m.Keys == old(dns.m).Keys - Image(dns.canon, gone)
        decreases todo
      {
        var n :| n in todo;
        if n !in desired {
          assert n !in gone && n in active;
          Unbind(n);
          MinusAdds(old(active), gone, n);
          OwnedAdds(old(active), gone, n);
          ImageMinus(dns.canon, old(dns.m).Keys, gone, n);
          gone := gone + {n};
        }
        todo := todo - {n};
      }
      assert gone == old(active).Keys - desired;
    }

    method BindNew(desired: set<Name>, binds: Name -> bool)
      requires Valid() && "" !in desired && desired !! skip && active.Keys <= desired
      modifies this, dns
      ensures Valid() && closed == old(closed)
      ensures forall n :: n in active <==> n in desired && (n in old(active) || binds(n))
      ensures Extends(old(active), active, old(next))
      ensures dns.m.Keys == old(dns.m).Keys + Image(dns.canon, active.Keys - old(active).Keys)
    {
      var todo := desired;
      assert active.Keys - old(active).Keys == {};
      assert Image(dns.canon, {}) == {};
      hide RecordsOK, ListenersOK, Image, Extends;
      while todo != {}
        invariant Valid() && closed == old(closed) && next >= old(next)
        invariant todo <= desired
        invariant active.Keys <= desired
        invariant forall n :: n in desired - todo ==> (n in active <==> n in old(active) || binds(n))
        invariant forall n :: n in todo ==> (n in active <==> n in old(active))
        invariant Extends(old(active), active, old(next))
        invariant dns.m.Keys == old(dns.m).Keys + Image(dns.canon, active.Keys - old(active).Keys)
        decreases todo
      {
        var n :| n in todo;
        if n !in active && binds(n) {
          ExtendsAdds(old(active), active, old(next), n, next);
          ImageAdds(dns.canon, active.Keys - old(active).Keys, {n});
          Bind(n);
        }
        todo := todo - {n};
      }
    }

    /** On exit every listener is closed and the overlay is empty. */
    method Stop()
      requires Valid()
      modifies this, dns
      ensures active == map[] && dns.m == map[]
      ensures forall n :: n in old(active) ==> old(active)[n] in closed
    {
      DropVanished({});
      assert active.Keys == {};
    }
  }

  // ---- when the overlay holds exactly the active names --------------------------------------

  /** If it did before an update, it does after exactly when no vanished name shares its canonical form
      with a name that stays, unless a new name takes that form too. */
  lemma OverlayExact(canon: Canon, before: set<Name>, after: set<Name>, was: set<string>, now: set<string>)
    requires was == Image(canon, before)
    requires now == (was - Image(canon, before - after)) + Image(canon, after - before)
    ensures now == Image(canon, after) <==>
              Image(canon, before - after) * Image(canon, before * after) <= Image(canon, after - before)
  {
    hide Image;
    assert before == (before - after) + (before * after);
    assert after == (after - before) + (before * after);
    ImageAdds(canon, before - after, before * after);
    ImageAdds(canon, after - before, before * after);
  }

  /** In particular it always does when canonical forms are distinct. */
  lemma OverlayExactWhenDistinct(canon: Canon, before: set<Name>, after: set<Name>, was: set<string>, now: set<string>)
    requires was == Image(canon, before)
    requires now == (was - Image(canon, before - after)) + Image(canon, after - before)
    requires forall n, o :: n in before && o in before && canon(n) == canon(o) ==> n == o
    ensures now == Image(canon, after)
  {
    assert Image(canon, before - after) * Image(canon, before * after) == {};
    OverlayExact(canon, before, after, was, now);
  }

  /** The condition is needed: when "a" leaves the catalog while "A" stays, "A" loses its record. */
  lemma CollidingNamesLoseRecord(canon: Canon)
    requires canon("A") == "a" && canon("a") == "a"
    ensures var before, after := {"A", "a"}, {"A"};
            var now := (Image(canon, before) - Image(canon, before - after)) + Image(canon, after - before);
            now == {} && Image(canon, after) == {"a"}
  {
    var before, after := {"A", "a"}, {"A"};
    assert before - after == {"a"} && after - before == {};
    assert "a" in Image(canon, {"a"}) && Image(canon, {}) == {};
  }
}
