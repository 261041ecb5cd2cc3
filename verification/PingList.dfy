/** The ping list in place: a linked list whose nodes know their own position. */
module PingList {
  import opened Options
  import opened Expiry

  class ReadIo {
    const uuid: string
    var ping_time: uint64
    var iter: Option<nat>

    constructor (uuid: string)
      ensures this.uuid == uuid && iter == None
    {
      this.uuid := uuid;
      iter := None;
      ping_time := 0;
    }
  }

  /** A position in the list; its identity survives changes elsewhere, as that of an iterator. */
  datatype Place = Place(id: nat, node: ReadIo)

  predicate Increasing(l: seq<Place>) { forall i, j :: 0 <= i < j < |l| ==> l[i].id < l[j].id }

  lemma RemovedPlaces(l: seq<Place>, i: nat)
    requires Increasing(l) && i < |l|
    ensures Increasing(l[..i] + l[i + 1..])
    ensures forall p :: p in l[..i] + l[i + 1..] <==> p in l && p.id != l[i].id
  {
  }

  lemma AddedPlace(l: seq<Place>, p: Place)
    requires Increasing(l) && forall q :: q in l ==> q.id < p.id
    ensures Increasing(l + [p]) && forall q :: q in l + [p] <==> q in l || q == p
  {
  }

  class Server {
    var pinglist: seq<Place>
    var next: nat
    var uuidnode: map<string, ReadIo>
    ghost var nodes: set<ReadIo>                   // every connection accepted so far
    ghost var view: seq<Entry<ReadIo>>             // the list as nodes with their times

    ghost predicate Valid()
      reads this, nodes
    {
      && (forall p :: p in pinglist ==> p.node in nodes && p.node.iter == Some(p.id) && p.id < next)
      && Increasing(pinglist)
      && (forall n :: n in nodes && n.iter.Some? ==> Place(n.iter.value, n) in pinglist)
      && |view| == |pinglist|
      && (forall i :: 0 <= i < |view| ==> view[i] == (pinglist[i].node, pinglist[i].node.ping_time))
    }

    /** A node's iterator is set exactly when it is listed, and it is listed once. */
    lemma IterMeansListed()
      requires Valid()
      ensures forall n :: n in nodes ==> (n.iter.Some? <==> Listed(view, n))
      ensures Distinct(view)
    {
      forall n | n in nodes ensures n.iter.Some? <==> Listed(view, n) {
        if n.iter.Some? {
          var i :| 0 <= i < |pinglist| && pinglist[i] == Place(n.iter.value, n);
          assert view[i] in view;
        } else {
          assert forall p :: p in pinglist ==> p.node != n;
        }
      }
    }

    constructor ()
      ensures Valid() && view == [] && nodes == {}
    {
      pinglist, next, uuidnode, nodes, view := [], 0, map[], {}, [];
    }

    method PingAppend(sp: ReadIo, now: uint64)
      requires Valid() && (sp in nodes ==> sp.iter == None)
      modifies this, sp
      ensures Valid() && nodes == old(nodes) + {sp} && uuidnode == old(uuidnode)
      ensures view == Append(old(view), sp, now)
      ensures sp.ping_time == now && sp.iter.Some?
    {
      assert forall p :: p in pinglist ==> p.node != sp;
      assert forall i :: 0 <= i < |pinglist| ==> pinglist[i].node != sp;
      var iter := next;
      AddedPlace(pinglist, Place(iter, sp));
      pinglist := pinglist + [Place(iter, sp)];
      next := next + 1;
      sp.iter := Some(iter);
      sp.ping_time := now;
      nodes := nodes + {sp};
      view := view + [(sp, now)];
      forall n | n in nodes && n.iter.Some? ensures Place(n.iter.value, n) in pinglist {
        assert n != sp ==> n.iter == old(n.iter) && n in old(nodes);
      }
    }

    /** pinglist_.erase and the reset of the node's iterator. */
    method RemoveAt(i: nat)
      requires Valid() && i < |pinglist|
      modifies `pinglist, `view, pinglist[i].node`iter
      ensures Valid() && pinglist == old(pinglist[..i] + pinglist[i + 1..])
      ensures view == old(view[..i] + view[i + 1..]) && old(pinglist[i].node).iter == None
    {
      var sp := pinglist[i].node;
      ghost var before := pinglist;
      pinglist := pinglist[..i] + pinglist[i + 1..];
      view := view[..i] + view[i + 1..];
      sp.iter := None;
      RemovedPlaces(before, i);
    }

    method PingErase(sp: ReadIo) returns (erased: bool)
      requires Valid() && sp in nodes
      modifies `pinglist, `view, sp`iter
      ensures Valid()
      ensures erased == old(Listed(view, sp)) && sp.iter == None
      ensures view == Without(old(view), sp)
    {
      IterMeansListed();
      if sp.iter.Some? {
        var i := Find(sp.iter.value);
        WithoutAt(view, i);
        RemoveAt(i);
        erased := true;
      } else {
        WithoutAbsent(view, sp);
        erased := false;
      }
    }

    /** Where the list keeps the place an iterator stands for. */
    method Find(id: nat) returns (i: nat)
      requires exists p :: p in pinglist && p.id == id
      ensures i < |pinglist| && pinglist[i].id == id
    {
      i := 0;
      while pinglist[i].id != id
        invariant i < |pinglist| && exists p :: p in pinglist[i..] && p.id == id
        decreases |pinglist| - i
      {
        i := i + 1;
      }
    }

    method PingMove2Back(sp: ReadIo, now: uint64)
      requires Valid() && sp in nodes
      modifies this, sp
      ensures Valid() && nodes == old(nodes) && uuidnode == old(uuidnode)
      ensures view == if old(Listed(view, sp)) then Append(Without(old(view), sp), sp, now) else old(view)
    {
      var erased := PingErase(sp);
      if erased {
        PingAppend(sp, now);
        assert nodes == old(nodes);
      } else {
        WithoutAbsent(old(view), sp);
      }
    }

    /** The timer: drops entries from the front until it meets a fresh one. */
    method PingtimeCallback(now: uint64)
      requires Valid()
      modifies `pinglist, `view, `uuidnode, nodes`iter
      ensures Valid() && nodes == old(nodes)
      ensures view == Scan(old(view), now)
      ensures uuidnode == old(uuidnode) - Uuids(old(view)[..Stale(old(view), now)])
    {
      ghost var k := 0;
      ghost var all := view;
      while pinglist != [] && Expired(now, pinglist[0].node.ping_time)
        invariant Valid() && nodes == old(nodes)
        invariant k <= |all| && view == all[k..]
        invariant forall i :: 0 <= i < k ==> Expired(now, all[i].1)
        invariant uuidnode == old(uuidnode) - Uuids(all[..k])
        decreases |pinglist|
      {
        var sp := pinglist[0].node;
        assert view[0] == (sp, sp.ping_time) == all[k];
        UuidsStep(old(uuidnode), all, k);
        uuidnode := uuidnode - {sp.uuid};
        RemoveAt(0);
        k := k + 1;
      }
    }
  }

  /** The devices of the entries that are gone are forgotten, and no others. */
  ghost predicate Forgets(
    m: map<string, ReadIo>, m': map<string, ReadIo>, l: seq<Entry<ReadIo>>, l': seq<Entry<ReadIo>>)
  {
    && (forall e :: e in l && e !in l' ==> e.0.uuid !in m')
    && (forall u :: u in m && (forall e :: e in l && e !in l' ==> e.0.uuid != u) ==> u in m' && m'[u] == m[u])
    && (forall u :: u in m' ==> u in m)
  }

  /** The timer forgets the devices of the connections it drops, and no others. */
  lemma ScanForgets(m: map<string, ReadIo>, l: seq<Entry<ReadIo>>, now: uint64)
    requires Distinct(l)
    ensures Forgets(m, m - Uuids(l[..Stale(l, now)]), l, Scan(l, now))
  {
    var k := Stale(l, now);
    forall e ensures e in l[..k] <==> e in l && e !in l[k..] {
      DroppedOrNot(l, k, e);
    }
    assert forall u :: u in Uuids(l[..k]) <==> exists e :: e in l[..k] && e.0.uuid == u;
  }

  lemma DroppedOrNot(l: seq<Entry<ReadIo>>, k: nat, e: Entry<ReadIo>)
    requires k <= |l| && Distinct(l)
    ensures e in l[..k] <==> e in l && e !in l[k..]
  {
    assert l == l[..k] + l[k..];
    assert e in l <==> e in l[..k] || e in l[k..];
    if e in l[..k] {
      var i :| 0 <= i < k && l[i] == e;
      assert forall j :: k <= j < |l| ==> l[j].0 != l[i].0;
    }
  }

  function Uuids(l: seq<Entry<ReadIo>>): set<string> { set e | e in l :: e.0.uuid }

  lemma UuidsStep(m: map<string, ReadIo>, l: seq<Entry<ReadIo>>, k: nat)
    requires k < |l|
    ensures m - Uuids(l[..k + 1]) == (m - Uuids(l[..k])) - {l[k].0.uuid}
  {
    assert l[..k + 1] == l[..k] + [l[k]];
    assert Uuids(l[..k + 1]) == Uuids(l[..k]) + {l[k].0.uuid};
  }
}
