/** network.cc: the merging of a new list of networks into the one that is kept. */
module Networks {
  // A name, standing for its place in the order of the names.
  type Name = nat

  datatype Triple = Triple(name: Name, ip: nat, gateway: nat)

  class Network {
    const name: Name
    var ip: nat
    var gateway_ip: nat

    constructor (name: Name, ip: nat, gateway: nat)
      ensures this.name == name && this.ip == ip && gateway_ip == gateway
    {
      this.name, this.ip, gateway_ip := name, ip, gateway;
    }

    function Value(): Triple
      reads this
    {
      Triple(name, ip, gateway_ip)
    }
  }

  ghost predicate Sorted(list: seq<Network>) { forall i, j :: 0 <= i < j < |list| ==> list[i].name < list[j].name }

  ghost predicate DistinctNames(list: seq<Network>) {
    forall i, j :: 0 <= i < j < |list| ==> list[i].name != list[j].name
  }

  // std::sort by name, for distinct names.
  method Sort(networks: seq<Network>) returns (list: seq<Network>)
    requires DistinctNames(networks)
    ensures Sorted(list) && |list| == |networks| && forall x :: x in list <==> x in networks
  {
    list := [];
    for i := 0 to |networks|
      invariant Sorted(list) && |list| == i && forall x :: x in list <==> x in networks[..i]
    {
      var at := Place(list, networks[i].name);
      assert forall k :: 0 <= k < |list| ==> list[k].name != networks[i].name by {
        forall k | 0 <= k < |list| ensures list[k].name != networks[i].name {
          assert list[k] in networks[..i];
        }
      }
      ghost var before := list;
      list := list[..at] + [networks[i]] + list[at..];
      InsertedMembers(before, at, networks[i]);
      assert networks[..i + 1] == networks[..i] + [networks[i]];
    }
    assert networks[..|networks|] == networks;
  }

  method Place(list: seq<Network>, name: Name) returns (at: nat)
    requires Sorted(list)
    ensures at <= |list| && (forall k :: 0 <= k < at ==> list[k].name < name)
    ensures forall k :: at <= k < |list| ==> name <= list[k].name
  {
    at := 0;
    while at < |list| && list[at].name < name
      invariant at <= |list| && forall k :: 0 <= k < at ==> list[k].name < name
    {
      at := at + 1;
    }
  }

  lemma InsertedMembers<T>(s: seq<T>, at: nat, x: T)
    requires at <= |s|
    ensures forall y :: y in s[..at] + [x] + s[at..] <==> y in s || y == x
  {
    assert s == s[..at] + s[at..];
  }

  ghost function Triples(list: seq<Network>): seq<Triple>
    reads list
  {
    seq(|list|, k requires 0 <= k < |list| reads list => list[k].Value())
  }

  ghost function Names(t: seq<Triple>, i: nat): set<Name>
    requires i <= |t|
  {
    set k | 0 <= k < i :: t[k].name
  }

  lemma NamesMore(t: seq<Triple>, i: nat)
    requires i < |t|
    ensures Names(t, i + 1) == Names(t, i) + {t[i].name}
  {
  }

  // The names on a list of triples are in order.
  ghost predicate InOrder(t: seq<Triple>) { forall i, j :: 0 <= i < j < |t| ==> t[i].name < t[j].name }

  class NetworkManagerBase {
    var networks_: seq<Network?>
    var networks_map_: map<Name, Network>
    ghost var deleted: set<Network>
    var signals: nat

    // Every network listed is the one of its name.
    ghost predicate Valid()
      reads this
    {
      && (forall n :: n in networks_map_ ==> networks_map_[n].name == n && networks_map_[n] !in deleted)
      && (forall k :: 0 <= k < |networks_| ==>
            networks_[k] != null && networks_[k].name in networks_map_ && networks_map_[networks_[k].name] == networks_[k])
      && forall i, j :: 0 <= i < j < |networks_| ==> networks_[i].name < networks_[j].name
    }

    ghost function Listed(): (t: seq<Triple>)
      reads this, networks_
      requires forall k :: 0 <= k < |networks_| ==> networks_[k] != null
      ensures |t| == |networks_|
    {
      seq(|networks_|, k requires 0 <= k < |networks_| && networks_[k] != null reads this, networks_ => networks_[k].Value())
    }

    constructor ()
      ensures Valid() && networks_ == [] && networks_map_ == map[] && deleted == {} && signals == 0
    {
      networks_, networks_map_, deleted, signals := [], map[], {}, 0;
    }

    // NetworkList::resize.
    method Resize(n: nat)
      modifies this`networks_
      ensures |networks_| == n
      ensures forall k :: 0 <= k < n ==> networks_[k] == if k < |old(networks_)| then old(networks_)[k] else null
    {
      networks_ := seq(n, k requires 0 <= k reads this => if k < |networks_| then networks_[k] else null);
    }

    // The network of a name: what is known of it is brought up to date, or it is adopted.
    method Merge(incoming: Network) returns (network: Network, differs: bool)
      requires incoming !in networks_map_.Values && incoming !in deleted
      requires forall n :: n in networks_map_ ==> networks_map_[n].name == n && networks_map_[n] !in deleted
      modifies this`networks_map_, this`deleted
      modifies if incoming.name in networks_map_ then {networks_map_[incoming.name]} else {}
      ensures network.Value() == old(incoming.Value())
      ensures if incoming.name in old(networks_map_) then
                && network == old(networks_map_)[incoming.name] && networks_map_ == old(networks_map_)
                && deleted == old(deleted) + {incoming} && differs == (old(network.Value()) != network.Value())
              else
                && network == incoming && networks_map_ == old(networks_map_)[incoming.name := incoming]
                && deleted == old(deleted) && !differs
    {
      differs := false;
      if incoming.name !in networks_map_ {
        network := incoming;
        networks_map_ := networks_map_[incoming.name := incoming];
        return;
      }
      network := networks_map_[incoming.name];
      if network.ip != incoming.ip {
        differs := true;
        network.ip := incoming.ip;
      }
      if network.gateway_ip != incoming.gateway_ip {
        differs := true;
        network.gateway_ip := incoming.gateway_ip;
      }
      deleted := deleted + {incoming};
    }

    // The list, which says now, of networks that were neither owned nor gone.
    ghost predicate Incoming(list: seq<Network>, i: nat, now: seq<Triple>, owned: map<Name, Network>,
        gone: set<Network>)
      reads list
    {
      && i <= |list| == |now| && Sorted(list)
      && (forall k :: 0 <= k < |list| ==> list[k].name == now[k].name && list[k] !in owned.Values && list[k] !in gone)
      && (forall n :: n in owned ==> owned[n].name == n && owned[n] !in gone)
      && forall k :: i <= k < |list| ==> list[k].Value() == now[k]
    }

    // The first i of them have been adopted or deleted.
    ghost predicate TakenOver(list: seq<Network>, i: nat, owned: map<Name, Network>, gone: set<Network>)
      reads this
    {
      && i <= |list|
      && (forall n :: n in networks_map_ ==> n in owned || exists k :: 0 <= k < i && list[k].name == n)
      && (forall n :: n in owned ==> n in networks_map_ && networks_map_[n] == owned[n])
      && (forall k :: 0 <= k < i && list[k].name !in owned ==>
            list[k].name in networks_map_ && networks_map_[list[k].name] == list[k])
      && (forall k :: 0 <= k < |list| ==> (list[k] in deleted <==> k < i && list[k].name in owned))
      && (forall x :: x in gone ==> x in deleted) && (forall x :: x in deleted ==> x in gone || x in list)
    }

    // They are listed, and say what the list said.
    ghost predicate Filled(list: seq<Network>, i: nat, now: seq<Triple>)
      reads this, networks_map_.Values
    {
      && i <= |list| == |now| == |networks_|
      && forall k :: 0 <= k < i ==>
           list[k].name in networks_map_ && networks_[k] == networks_map_[list[k].name]
           && networks_map_[list[k].name].Value() == now[k]
    }

    // What has not been merged yet is listed as it was.
    ghost predicate Waiting(i: nat, was: seq<Triple>, owned: map<Name, Network>)
      reads this, networks_
    {
      forall k :: i <= k < |networks_| && k < |was| ==>
        networks_[k] != null && networks_[k].name == was[k].name && networks_[k].name in owned && owned[networks_[k].name] == networks_[k]
    }

    static ghost function Said(owned: map<Name, Network>): (said: map<Name, Triple>)
      reads owned.Values
      ensures said.Keys == owned.Keys && forall n :: n in said ==> said[n] == owned[n].Value()
    {
      map n | n in owned :: owned[n].Value()
    }

    // And it says what it said; said is what was known of every network owned.
    static ghost predicate Untouched(done: set<Name>, said: map<Name, Triple>, owned: map<Name, Network>)
      reads owned.Values
    {
      said.Keys == owned.Keys && forall n :: n in owned && n !in done ==> owned[n].Value() == said[n]
    }

    ghost predicate Detected(changed: bool, i: nat, was: seq<Triple>, now: seq<Triple>) {
      i <= |now| && (changed <==> |was| != |now| || was[..i] != now[..i])
    }

    // An entry of the old list that is reached while no change has been found says what it said.
    lemma StillOld(i: nat, was: seq<Triple>, now: seq<Triple>, said: map<Name, Triple>, owned: map<Name, Network>)
      requires i < |now| == |networks_| && Waiting(i, was, owned) && Untouched(Names(now, i), said, owned)
      requires Detected(false, i, was, now) && InOrder(was)
      requires was[i].name in said && said[was[i].name] == was[i]
      ensures i < |was|
      ensures was[i] != now[i] <==> now[i].name != was[i].name
                                    || (now[i].name in owned && owned[now[i].name].Value() != now[i])
    {
      forall j | 0 <= j < i ensures now[j].name != was[i].name {
        assert was[..i][j] == now[..i][j];
      }
    }

    method MergeAt(list: seq<Network>, i: nat, ghost now: seq<Triple>, 
                   ghost owned: map<Name, Network>, ghost gone: set<Network>) returns (network: Network, differs: bool)
      requires Incoming(list, i, now, owned, gone) && TakenOver(list, i, owned, gone) && i < |list|
      modifies this`networks_map_, this`deleted
      modifies if list[i].name in owned then {owned[list[i].name]} else {}
      ensures Incoming(list, i + 1, now, owned, gone) && TakenOver(list, i + 1, owned, gone)
      ensures list[i].name in networks_map_ && network == networks_map_[list[i].name]
      ensures network.name == list[i].name && network.Value() == now[i]
      ensures forall n :: n in old(networks_map_) ==> n in networks_map_ && networks_map_[n] == old(networks_map_)[n]
      ensures if list[i].name in owned then network == owned[list[i].name] && differs == (old(network.Value()) != now[i])
              else network == list[i] && !differs
    {
      assert forall k :: 0 <= k < |list| && k != i ==> list[k].name != list[i].name;
      assert list[i].name in owned <==> list[i].name in networks_map_;
      network, differs := Merge(list[i]);
    }

    // What has been listed is not touched by the merging of another name.
    method MergeApart(list: seq<Network>, i: nat, ghost now: seq<Triple>, 
                      ghost owned: map<Name, Network>, ghost gone: set<Network>) returns (network: Network, differs: bool)
      requires Incoming(list, i, now, owned, gone) && TakenOver(list, i, owned, gone) && Filled(list, i, now)
      requires i < |list|
      modifies this`networks_map_, this`deleted
      modifies if list[i].name in owned then {owned[list[i].name]} else {}
      ensures Incoming(list, i + 1, now, owned, gone) && TakenOver(list, i + 1, owned, gone) && Filled(list, i, now)
      ensures list[i].name in networks_map_ && network == networks_map_[list[i].name]
      ensures network.name == list[i].name && network.Value() == now[i]
      ensures differs <==> list[i].name in owned && old(owned[list[i].name].Value()) != now[i]
    {
      ghost var before := networks_map_;
      network, differs := MergeAt(list, i, now, owned, gone);
      forall k | 0 <= k < i
        ensures list[k].name in networks_map_ && networks_map_[list[k].name] == before[list[k].name] != network
      {
        assert list[k].name < list[i].name;
      }
    }

    method Store(list: seq<Network>, i: nat, network: Network, ghost was: seq<Triple>, ghost now: seq<Triple>,
                 ghost owned: map<Name, Network>)
      requires Filled(list, i, now) && Waiting(i, was, owned) && i < |list|
      requires list[i].name in networks_map_ && network == networks_map_[list[i].name]
      requires network.name == list[i].name && network.Value() == now[i]
      modifies this`networks_
      ensures Filled(list, i + 1, now) && Waiting(i + 1, was, owned)
    {
      networks_ := networks_[i := network];
    }

    method MergeOne(list: seq<Network>, i: nat, before: bool, ghost was: seq<Triple>, ghost now: seq<Triple>,
                    ghost owned: map<Name, Network>, ghost gone: set<Network>)
      returns (changed: bool)
      requires Incoming(list, i, now, owned, gone) && TakenOver(list, i, owned, gone) && Filled(list, i, now)
      requires i < |list| && Waiting(i, was, owned)
      requires !before ==> i < |was|
      modifies this`networks_, this`networks_map_, this`deleted
      modifies if list[i].name in owned then {owned[list[i].name]} else {}
      ensures Incoming(list, i + 1, now, owned, gone) && TakenOver(list, i + 1, owned, gone) && Filled(list, i + 1, now)
      ensures Waiting(i + 1, was, owned)
      ensures forall n :: n in owned && n != now[i].name ==> owned[n].Value() == old(owned[n].Value())
      ensures changed <==> before || now[i].name != was[i].name
                           || (list[i].name in owned && old(owned[list[i].name].Value()) != now[i])
    {
      var network, differs := MergeApart(list, i, now, owned, gone);
      changed := before;
      if differs {
        changed := true;
      }
      if !changed {
        if networks_[i].name != network.name {
          changed := true;
        }
      }
      Store(list, i, network, was, now, owned);
    }

    // What waits stays as it was.
    method MergeKeeping(list: seq<Network>, i: nat, before: bool, ghost was: seq<Triple>, ghost now: seq<Triple>,
                        ghost said: map<Name, Triple>, ghost owned: map<Name, Network>, ghost gone: set<Network>)
      returns (changed: bool)
      requires Incoming(list, i, now, owned, gone) && TakenOver(list, i, owned, gone) && Filled(list, i, now)
      requires i < |list| && Waiting(i, was, owned) && Untouched(Names(now, i), said, owned)
      requires !before ==> i < |was|
      modifies this`networks_, this`networks_map_, this`deleted, owned.Values
      ensures Incoming(list, i + 1, now, owned, gone) && TakenOver(list, i + 1, owned, gone) && Filled(list, i + 1, now)
      ensures Waiting(i + 1, was, owned) && Untouched(Names(now, i + 1), said, owned)
      ensures changed <==> before || now[i].name != was[i].name
                           || (list[i].name in owned && old(owned[list[i].name].Value()) != now[i])
    {
      NamesMore(now, i);
      changed := MergeOne(list, i, before, was, now, owned, gone);
    }

    // And a change is detected when there is one.
    method MergeNext(list: seq<Network>, i: nat, before: bool, ghost was: seq<Triple>, ghost now: seq<Triple>,
                     ghost said: map<Name, Triple>, ghost owned: map<Name, Network>, ghost gone: set<Network>)
      returns (changed: bool)
      requires Incoming(list, i, now, owned, gone) && TakenOver(list, i, owned, gone) && Filled(list, i, now)
      requires i < |list| && Waiting(i, was, owned) && Untouched(Names(now, i), said, owned)
      requires Detected(before, i, was, now) && InOrder(was)
      requires forall k :: 0 <= k < |was| ==> was[k].name in said && said[was[k].name] == was[k]
      modifies this`networks_, this`networks_map_, this`deleted, owned.Values
      ensures Incoming(list, i + 1, now, owned, gone) && TakenOver(list, i + 1, owned, gone) && Filled(list, i + 1, now)
      ensures Waiting(i + 1, was, owned) && Untouched(Names(now, i + 1), said, owned)
      ensures Detected(changed, i + 1, was, now)
    {
      if !before { StillOld(i, was, now, said, owned); }
      changed := MergeKeeping(list, i, before, was, now, said, owned, gone);
      DetectStep(before, changed, i, was, now);
    }

    method MergeAll(list: seq<Network>, ghost was: seq<Triple>, ghost now: seq<Triple>,
                    ghost said: map<Name, Triple>, ghost owned: map<Name, Network>, ghost gone: set<Network>)
      returns (changed: bool)
      requires Incoming(list, 0, now, owned, gone) && TakenOver(list, 0, owned, gone)
      requires Waiting(0, was, owned) && Untouched({}, said, owned)
      requires |networks_| == |was| && InOrder(was) && forall k :: 0 <= k < |was| ==> was[k].name in said && said[was[k].name] == was[k]
      modifies this`networks_, this`networks_map_, this`deleted, owned.Values
      ensures Incoming(list, |list|, now, owned, gone) && TakenOver(list, |list|, owned, gone) && Filled(list, |list|, now)
      ensures changed <==> was != now
    {
      changed := |networks_| != |list|;
      Resize(|list|);
      assert Names(now, 0) == {};
      for i := 0 to |list|
        invariant Incoming(list, i, now, owned, gone) && TakenOver(list, i, owned, gone) && Filled(list, i, now)
        invariant Waiting(i, was, owned) && Untouched(Names(now, i), said, owned)
        invariant Detected(changed, i, was, now)
      {
        changed := MergeNext(list, i, changed, was, now, said, owned, gone);
      }
      DetectEnd(was, now);
    }

    method MergeSorted(list: seq<Network>, force: bool)
      requires Valid() && Sorted(list)
      requires forall x :: x in list ==> x !in networks_map_.Values && x !in deleted
      modifies this, networks_map_.Values
      ensures Valid() && Listed() == old(Triples(list))
      ensures TakenOver(list, |list|, old(networks_map_), old(deleted))
      ensures signals == old(signals) + if force || Listed() != old(Listed()) then 1 else 0
    {
      ghost var was, now, owned, gone := Listed(), Triples(list), networks_map_, deleted;
      ghost var said := Said(owned);
      Prepared(list, was, now, said);
      var changed := MergeAll(list, was, now, said, owned, gone);
      if changed || force {
        signals := signals + 1;
      }
      AllListed(list, now, owned, gone);
    }

    /** The list becomes the new one, in the order of its names; a name keeps its object, every
        incoming object is adopted or deleted, and a change is signalled if and only if there
        is one or it is forced. */
    method MergeNetworkList(newNetworks: seq<Network>, force: bool)
      requires Valid() && DistinctNames(newNetworks)
      requires forall x :: x in newNetworks ==> x !in networks_map_.Values && x !in deleted
      modifies this, networks_map_.Values
      ensures Valid() && InOrder(Listed()) && |Listed()| == |newNetworks|
      ensures forall x :: x in newNetworks ==> old(x.Value()) in Listed()
      ensures forall n :: n in old(networks_map_) ==> n in networks_map_ && networks_map_[n] == old(networks_map_)[n]
      ensures forall x :: x in newNetworks ==>
                if x.name in old(networks_map_) then x in deleted
                else x !in deleted && x.name in networks_map_ && networks_map_[x.name] == x
      ensures forall x :: x in deleted ==> x in old(deleted) || x in newNetworks
      ensures signals == old(signals) + if force || Listed() != old(Listed()) then 1 else 0
    {
      var list := Sort(newNetworks);
      forall x | x in newNetworks ensures x.Value() in Triples(list) {
        var k :| 0 <= k < |list| && list[k] == x;
        assert Triples(list)[k] == x.Value();
      }
      MergeSorted(list, force);
    }

    lemma Prepared(list: seq<Network>, was: seq<Triple>, now: seq<Triple>, said: map<Name, Triple>)
      requires Valid() && Sorted(list) && was == Listed() && now == Triples(list)
      requires forall x :: x in list ==> x !in networks_map_.Values && x !in deleted
      requires said.Keys == networks_map_.Keys && forall n :: n in said ==> said[n] == networks_map_[n].Value()
      ensures Incoming(list, 0, now, networks_map_, deleted) && TakenOver(list, 0, networks_map_, deleted)
      ensures Waiting(0, was, networks_map_) && Untouched({}, said, networks_map_) && InOrder(was)
      ensures forall k :: 0 <= k < |was| ==> was[k].name in said && said[was[k].name] == was[k]
    {
    }

    lemma AllListed(list: seq<Network>, now: seq<Triple>, owned: map<Name, Network>, gone: set<Network>)
      requires Incoming(list, |list|, now, owned, gone) && TakenOver(list, |list|, owned, gone) && Filled(list, |list|, now)
      ensures Valid() && Listed() == now && InOrder(now)
    {
    }
  }

  lemma DetectEnd(was: seq<Triple>, now: seq<Triple>)
    ensures (|was| != |now| || was[..|now|] != now[..|now|]) <==> was != now
  {
    if |was| == |now| { assert was[..|now|] == was && now[..|now|] == now; }
  }

  lemma DetectStep(before: bool, changed: bool, i: nat, was: seq<Triple>, now: seq<Triple>)
    requires i < |now| && (before <==> |was| != |now| || was[..i] != now[..i])
    requires (before ==> changed) && (!before ==> (changed <==> was[i] != now[i]))
    ensures changed <==> |was| != |now| || was[..i + 1] != now[..i + 1]
  {
    if |was| == |now| {
      assert was[..i + 1] == was[..i] + [was[i]] && now[..i + 1] == now[..i] + [now[i]];
      assert was[..i + 1][..i] == was[..i] && now[..i + 1][..i] == now[..i];
      assert was[..i + 1][i] == was[i] && now[..i + 1][i] == now[i];
    }
  }
}
