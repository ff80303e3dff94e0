/** WireGuard peer sets: when two declare the same peers, and the set installed between two of them. */
module Peers {
  import opened Wrappers

  type Key = nat
  type Addr = nat

  /** A public key and its address, None when the address is not valid. */
  datatype Peer = Peer(key: Key, addr: Option<Addr>)

  predicate UniqueKeys(ps: seq<Peer>) {
    forall i, j | 0 <= i < j < |ps| :: ps[i].key != ps[j].key
  }

  predicate UniqueAddrs(ps: seq<Peer>) {
    forall i, j | 0 <= i < j < |ps| :: ps[i].addr != ps[j].addr
  }

  /** No two peers have the same valid address. */
  predicate UniqueValidAddrs(ps: seq<Peer>) {
    forall i, j | 0 <= i < j < |ps| :: ps[i].addr == ps[j].addr ==> ps[i].addr.None?
  }

  predicate Declares(ps: seq<Peer>, k: Key) {
    exists i :: 0 <= i < |ps| && ps[i].key == k
  }

  predicate Claims(ps: seq<Peer>, a: Option<Addr>) {
    exists i :: 0 <= i < |ps| && ps[i].addr == a
  }

  /** The address of each key; of a key that occurs twice, the last one. */
  function KeyMap(ps: seq<Peer>): map<Key, Option<Addr>> {
    if ps == [] then map[]
    else var n := |ps| - 1; KeyMap(ps[..n])[ps[n].key := ps[n].addr]
  }

  method MakeKeyMap(ps: seq<Peer>) returns (m: map<Key, Option<Addr>>)
    ensures m == KeyMap(ps)
  {
    m := map[];
    for i := 0 to |ps|
      invariant m == KeyMap(ps[..i])
    {
      assert ps[..i + 1][..i] == ps[..i];
      m := m[ps[i].key := ps[i].addr];
    }
    assert ps[..|ps|] == ps;
  }

  method PeersEqual(a: seq<Peer>, b: seq<Peer>) returns (same: bool)
    ensures same <==> KeyMap(a) == KeyMap(b)
  {
    var am := MakeKeyMap(a);
    var bm := MakeKeyMap(b);
    if |am| != |bm| {
      return false;
    }
    var left := am.Keys;
    while left != {}
      invariant left <= am.Keys
      invariant forall k <- am.Keys - left :: k in bm && bm[k] == am[k]
    {
      var k :| k in left;
      if k !in bm || bm[k] != am[k] {
        return false;
      }
      left := left - {k};
    }
    SubsetOfSameSize(am.Keys, bm.Keys);
    same := true;
  }

  /** The address of a key is that of the last peer with it. */
  lemma {:induction false} KeyMapIsLast(ps: seq<Peer>, i: nat)
    requires i < |ps| && forall j | i < j < |ps| :: ps[j].key != ps[i].key
    ensures ps[i].key in KeyMap(ps) && KeyMap(ps)[ps[i].key] == ps[i].addr
    decreases |ps|
  {
    var n := |ps| - 1;
    if i < n {
      KeyMapIsLast(ps[..n], i);
    }
  }

  lemma {:induction false} KeyMapLooksUp(ps: seq<Peer>, k: Key)
    requires UniqueKeys(ps)
    ensures k in KeyMap(ps) <==> Declares(ps, k)
    ensures forall i | 0 <= i < |ps| && ps[i].key == k :: k in KeyMap(ps) && KeyMap(ps)[k] == ps[i].addr
    decreases |ps|
  {
    if ps != [] {
      KeyMapLooksUp(ps[..|ps| - 1], k);
    }
  }

  /** Sets without a repeated key have equal maps exactly when they hold the same peers, in any order. */
  lemma SameMapSamePeers(a: seq<Peer>, b: seq<Peer>)
    requires UniqueKeys(a) && UniqueKeys(b)
    ensures KeyMap(a) == KeyMap(b) <==> forall p :: p in a <==> p in b
  {
    forall p ensures (p in a <==> p.key in KeyMap(a) && KeyMap(a)[p.key] == p.addr) {
      KeyMapLooksUp(a, p.key);
    }
    forall p ensures (p in b <==> p.key in KeyMap(b) && KeyMap(b)[p.key] == p.addr) {
      KeyMapLooksUp(b, p.key);
    }
    if forall p :: p in a <==> p in b {
      forall k ensures k in KeyMap(a) <==> k in KeyMap(b) {
        if k in KeyMap(a) {
          assert Peer(k, KeyMap(a)[k]) in a;
        }
        if k in KeyMap(b) {
          assert Peer(k, KeyMap(b)[k]) in b;
        }
      }
      forall k | k in KeyMap(a) ensures KeyMap(a)[k] == KeyMap(b)[k] {
        assert Peer(k, KeyMap(a)[k]) in a;
      }
    }
  }

  // ----- The union -----

  predicate Keeps(out: seq<Peer>, want: seq<Peer>, p: Peer) {
    !Declares(out, p.key) && !Claims(want, p.addr) && p.addr.Some?
  }

  /** What the union is once it has seen the peers of have. */
  function Union(want: seq<Peer>, have: seq<Peer>): seq<Peer>
    decreases |have|
  {
    if have == [] then want
    else
      var n := |have| - 1; var out := Union(want, have[..n]);
      if Keeps(out, want, have[n]) then out + [have[n]] else out
  }

  method PeerUnion(want: seq<Peer>, have: seq<Peer>) returns (out: seq<Peer>)
    ensures out == Union(want, have)
  {
    out := want;
    var seen: set<Key>, claimed: set<Option<Addr>> := {}, {};
    for i := 0 to |want|
      invariant forall k :: k in seen <==> Declares(want[..i], k)
      invariant forall a :: a in claimed <==> Claims(want[..i], a)
    {
      DeclaresNext(want, i);
      seen := seen + {want[i].key};
      claimed := claimed + {want[i].addr};
    }
    assert want[..|want|] == want;
    for i := 0 to |have|
      invariant out == Union(want, have[..i])
      invariant forall k :: k in seen <==> Declares(out, k)
    {
      assert have[..i + 1][..i] == have[..i];
      var p := have[i];
      if p.key !in seen && p.addr !in claimed && p.addr.Some? {
        DeclaresNext(out + [p], |out|);
        assert (out + [p])[..|out|] == out && (out + [p])[..|out| + 1] == out + [p];
        out := out + [p];
        seen := seen + {p.key};
      }
    }
    assert have[..|have|] == have;
  }

  lemma DeclaresNext(ps: seq<Peer>, i: nat)
    requires i < |ps|
    ensures forall k :: Declares(ps[..i + 1], k) <==> Declares(ps[..i], k) || k == ps[i].key
    ensures forall a :: Claims(ps[..i + 1], a) <==> Claims(ps[..i], a) || a == ps[i].addr
  {
    var a, b := ps[..i], ps[..i + 1];
    assert b[i] == ps[i] && forall j | 0 <= j < i :: b[j] == a[j];
    forall k ensures Declares(b, k) <==> Declares(a, k) || k == ps[i].key {
      if Declares(a, k) {
        var j :| 0 <= j < i && a[j].key == k;
        assert b[j].key == k;
      }
      if Declares(b, k) {
        var j :| 0 <= j <= i && b[j].key == k;
        assert j < i ==> a[j].key == k;
      }
    }
    forall x ensures Claims(b, x) <==> Claims(a, x) || x == ps[i].addr {
      if Claims(a, x) {
        var j :| 0 <= j < i && a[j].addr == x;
        assert b[j].addr == x;
      }
      if Claims(b, x) {
        var j :| 0 <= j <= i && b[j].addr == x;
        assert j < i ==> a[j].addr == x;
      }
    }
  }

  /** The union begins with want, and what follows are peers of have that want does not displace. */
  lemma {:induction false} UnionExtends(want: seq<Peer>, have: seq<Peer>)
    ensures want <= Union(want, have)
    ensures forall i | |want| <= i < |Union(want, have)| ::
              var p := Union(want, have)[i];
              p in have && !Declares(want, p.key) && !Claims(want, p.addr) && p.addr.Some?
    decreases |have|
  {
    if have != [] {
      var n := |have| - 1;
      UnionExtends(want, have[..n]);
      var out := Union(want, have[..n]);
      if Declares(want, have[n].key) {
        var j :| 0 <= j < |want| && want[j].key == have[n].key;
        assert out[j] == want[j];
      }
    }
  }

  /** Which peers the union has: every wanted one, and an old one unless its key, address or validity rules it out. */
  lemma {:induction false} UnionMembers(want: seq<Peer>, have: seq<Peer>, p: Peer)
    requires UniqueKeys(have)
    ensures p in Union(want, have) <==>
            p in want || (p in have && !Declares(want, p.key) && !Claims(want, p.addr) && p.addr.Some?)
  {
    UnionExtends(want, have);
    if p in have && !Declares(want, p.key) && !Claims(want, p.addr) && p.addr.Some? {
      var j :| 0 <= j < |have| && have[j] == p;
      UnionKeepsOld(want, have, j);
    }
  }

  lemma {:induction false} UnionKeepsOld(want: seq<Peer>, have: seq<Peer>, j: nat)
    requires UniqueKeys(have) && j < |have|
    requires !Declares(want, have[j].key) && !Claims(want, have[j].addr) && have[j].addr.Some?
    ensures have[j] in Union(want, have)
    decreases |have|
  {
    var n := |have| - 1;
    if j < n {
      UnionKeepsOld(want, have[..n], j);
    } else {
      UnionExtends(want, have[..n]);
      var out := Union(want, have[..n]);
      forall i | 0 <= i < |out| ensures out[i].key != have[n].key {
        if i >= |want| {
          var h :| 0 <= h < n && have[h] == out[i];
        }
      }
    }
  }

  lemma {:induction false} UnionUnique(want: seq<Peer>, have: seq<Peer>)
    requires UniqueKeys(want) && UniqueAddrs(want) && UniqueValidAddrs(have)
    ensures UniqueKeys(Union(want, have)) && UniqueAddrs(Union(want, have))
    decreases |have|
  {
    if have != [] {
      var n := |have| - 1;
      UnionUnique(want, have[..n]);
      UnionExtends(want, have[..n]);
      var out := Union(want, have[..n]);
      forall i | 0 <= i < |out| && Keeps(out, want, have[n])
        ensures out[i].key != have[n].key && out[i].addr != have[n].addr
      {
        if i >= |want| {
          var h :| 0 <= h < n && have[h] == out[i];
        } else {
          assert out[i] == want[i];
        }
      }
    }
  }

  /** Going from old through the union to new, a peer both sets declare is never missing. */
  lemma SharedPeersStay(before: seq<Peer>, after: seq<Peer>, p: Peer)
    requires p in before && p in after
    ensures p in Union(after, before)
  {
    UnionExtends(after, before);
    var i :| 0 <= i < |after| && after[i] == p;
    assert Union(after, before)[i] == p;
  }
}
