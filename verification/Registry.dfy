/**
 * The relay's index of connected home nodes (internal/relay/registry.go): a canonical map by node and
 * a denormalised list per family, sorted by preference and then by join time.
 */
module Registry {
  import opened Common

  /** Nanoseconds; 0 is the zero time. */
  type Time = int
  const STALENESS_THRESHOLD: int := 60_000_000_000

  datatype Preference = Secondary | Primary

  class NodeHealth {
    const nodeId: string
    const familyId: string
    var pref: Preference
    var lastSeen: Time
    var joinedAt: Time

    constructor (nodeId: string, familyId: string, pref: Preference)
      ensures this.nodeId == nodeId && this.familyId == familyId && this.pref == pref
      ensures lastSeen == 0 && joinedAt == 0
    {
      this.nodeId, this.familyId, this.pref, lastSeen, joinedAt := nodeId, familyId, pref, 0, 0;
    }
  }

  /** Primary before secondary, then the longer connected first. */
  predicate Better(a: NodeHealth, b: NodeHealth)
    reads a, b
  {
    if a.pref != b.pref then a.pref.Primary? else a.joinedAt < b.joinedAt
  }

  predicate Healthy(h: NodeHealth, now: Time)
    reads h
  {
    now - h.lastSeen <= STALENESS_THRESHOLD
  }

  ghost predicate Sorted(nodes: seq<NodeHealth>)
    reads nodes
  {
    forall i, j :: 0 <= i < j < |nodes| ==> !Better(nodes[j], nodes[i])
  }

  /** The list holds exactly the registered nodes of the family, each once. */
  ghost predicate ListsFamily(byNode: map<string, NodeHealth>, f: string, nodes: seq<NodeHealth>) {
    && NoDup(nodes)
    && (forall h :: h in nodes ==> h.familyId == f && h.nodeId in byNode && byNode[h.nodeId] == h)
    && (forall id :: id in byNode && byNode[id].familyId == f ==> byNode[id] in nodes)
  }

  ghost predicate KeyedById(byNode: map<string, NodeHealth>) {
    forall id :: id in byNode ==> byNode[id].nodeId == id
  }

  /** The list of a family, empty if the family has no entry. */
  function Nodes(byFamily: map<string, seq<NodeHealth>>, f: string): seq<NodeHealth> {
    if f in byFamily then byFamily[f] else []
  }

  // ---------------------------------------------------------------- sorting

  /** Inserts behind every node that is at least as good, so equal nodes keep their order. */
  method InsertSorted(nodes: seq<NodeHealth>, h: NodeHealth) returns (r: seq<NodeHealth>)
    requires Sorted(nodes)
    ensures Sorted(r)
    ensures exists i :: 0 <= i <= |nodes| && r == nodes[..i] + [h] + nodes[i..]
  {
    var i := |nodes|;
    while i > 0 && Better(h, nodes[i - 1])
      invariant 0 <= i <= |nodes|
      invariant forall j :: i <= j < |nodes| ==> Better(h, nodes[j])
    {
      i := i - 1;
    }
    r := nodes[..i] + [h] + nodes[i..];
    assert forall j :: 0 <= j < i ==> !Better(h, nodes[j]) by {
      if i > 0 {
        assert !Better(h, nodes[i - 1]);
      }
    }
  }

  method SortNodes(nodes: seq<NodeHealth>) returns (r: seq<NodeHealth>)
    requires NoDup(nodes)
    ensures Sorted(r) && NoDup(r)
    ensures forall h :: h in r ==> h in nodes
    ensures forall h :: h in nodes ==> h in r
  {
    r := [];
    var n := 0;
    while n < |nodes|
      invariant 0 <= n <= |nodes|
      invariant Sorted(r) && NoDup(r)
      invariant forall h :: h in r ==> h in nodes[..n]
      invariant forall h :: h in nodes[..n] ==> h in r
    {
      var r' := InsertSorted(r, nodes[n]);
      ghost var i :| 0 <= i <= |r| && r' == r[..i] + [nodes[n]] + r[i..];
      assert nodes[..n + 1] == nodes[..n] + [nodes[n]];
      assert nodes[n] !in nodes[..n];
      InsertNoDup(r, nodes[n], i);
      r := r';
      n := n + 1;
    }
    assert nodes[..n] == nodes;
  }

  lemma InsertNoDup(r: seq<NodeHealth>, h: NodeHealth, i: nat)
    requires NoDup(r) && h !in r && i <= |r|
    ensures var r' := r[..i] + [h] + r[i..];
            && NoDup(r')
            && (forall x :: x in r' ==> x == h || x in r)
            && (forall x :: x in r ==> x in r') && h in r'
  {
    var r' := r[..i] + [h] + r[i..];
    assert r'[i] == h;
    assert forall j :: 0 <= j < i ==> r'[j] == r[j];
    assert forall j :: i < j < |r'| ==> r'[j] == r[j - 1];
    forall x | x in r ensures x in r' {
      var j :| 0 <= j < |r| && r[j] == x;
      assert r'[if j < i then j else j + 1] == x;
    }
  }

  /** What registering `h` does to the lists of the other families, which are not rebuilt. */
  lemma OtherLists(byNode: map<string, NodeHealth>, byFamily: map<string, seq<NodeHealth>>, h: NodeHealth)
    requires KeyedById(byNode) && forall f :: ListsFamily(byNode, f, Nodes(byFamily, f))
    ensures var after := byNode[h.nodeId := h];
            if h.nodeId in byNode && byNode[h.nodeId].familyId != h.familyId
            then !ListsFamily(after, byNode[h.nodeId].familyId, Nodes(byFamily, byNode[h.nodeId].familyId))
            else forall g :: g != h.familyId ==> ListsFamily(after, g, Nodes(byFamily, g))
  {
    var after := byNode[h.nodeId := h];
    if h.nodeId in byNode && byNode[h.nodeId].familyId != h.familyId {
      var g := byNode[h.nodeId].familyId;
      assert ListsFamily(byNode, g, Nodes(byFamily, g));
    } else {
      forall g | g != h.familyId ensures ListsFamily(after, g, Nodes(byFamily, g)) {
        assert ListsFamily(byNode, g, Nodes(byFamily, g));
      }
    }
  }

  ghost function HealthyAmong(nodes: seq<NodeHealth>, now: Time): set<string>
    reads nodes
  {
    set h | h in nodes && Healthy(h, now) :: h.nodeId
  }

  /** The latest time any of the nodes was seen, 0 if none was. */
  ghost predicate IsFreshest(nodes: seq<NodeHealth>, t: Time)
    reads nodes
  {
    && t >= 0 && (forall h :: h in nodes ==> h.lastSeen <= t)
    && (t != 0 ==> exists h :: h in nodes && h.lastSeen == t)
  }

  lemma OneMoreFreshest(nodes: seq<NodeHealth>, i: nat, t: Time)
    requires i < |nodes| && IsFreshest(nodes[..i], t)
    ensures IsFreshest(nodes[..i + 1], if nodes[i].lastSeen > t then nodes[i].lastSeen else t)
  {
    assert nodes[..i + 1] == nodes[..i] + [nodes[i]];
    if nodes[i].lastSeen > t { assert nodes[i] in nodes[..i + 1]; }
  }

  lemma OneMoreHealthy(nodes: seq<NodeHealth>, i: nat, now: Time)
    requires i < |nodes| && forall j, k :: 0 <= j < k < |nodes| ==> nodes[j].nodeId != nodes[k].nodeId
    ensures |HealthyAmong(nodes[..i + 1], now)| ==
            |HealthyAmong(nodes[..i], now)| + (if Healthy(nodes[i], now) then 1 else 0)
  {
    var before, after := HealthyAmong(nodes[..i], now), HealthyAmong(nodes[..i + 1], now);
    assert nodes[..i + 1] == nodes[..i] + [nodes[i]];
    assert nodes[i].nodeId !in before;
    if Healthy(nodes[i], now) {
      assert after == before + {nodes[i].nodeId};
    } else {
      assert after == before;
    }
  }

  // ---------------------------------------------------------------- the registry

  datatype Status = Status(healthyCount: nat, totalCount: nat, hasFallback: bool, lastSeenAgo: int)

  class NodeRegistry {
    var byNode: map<string, NodeHealth>
    var byFamily: map<string, seq<NodeHealth>>

    ghost function Footprint(): (r: set<object>)
      reads this
      ensures forall f, h :: f in byFamily && h in byFamily[f] ==> h in r
      ensures forall id :: id in byNode ==> byNode[id] in r
    {
      (set id | id in byNode :: byNode[id]) + (set f, h | f in byFamily && h in byFamily[f] :: h)
    }

    /** Every family's list is right, and no family has an empty one. */
    ghost predicate Valid()
      reads this, Footprint()
    {
      && KeyedById(byNode)
      && (forall id :: id in byNode ==> byNode[id].joinedAt != 0)
      && (forall f :: f in byFamily ==> byFamily[f] != [])
      && (forall f :: ListsFamily(byNode, f, Nodes(byFamily, f)))
      && (forall f :: f in byFamily ==> Sorted(byFamily[f]))
    }

    constructor ()
      ensures Valid() && byNode == map[]
    {
      byNode, byFamily := map[], map[];
    }

    /** Only this family's list is recomputed. */
    method RebuildFamilyIndex(f: string)
      requires KeyedById(byNode)
      modifies this`byFamily
      ensures ListsFamily(byNode, f, Nodes(byFamily, f)) && Sorted(Nodes(byFamily, f))
      ensures f in byFamily ==> byFamily[f] != []
      ensures byFamily == if f in byFamily then old(byFamily)[f := byFamily[f]] else old(byFamily) - {f}
    {
      var nodes := Members(f);
      if |nodes| == 0 {
        byFamily := byFamily - {f};
        return;
      }
      var sorted := SortNodes(nodes);
      assert nodes[0] in sorted;
      byFamily := byFamily[f := sorted];
    }

    method Members(f: string) returns (nodes: seq<NodeHealth>)
      requires KeyedById(byNode)
      ensures ListsFamily(byNode, f, nodes)
    {
      nodes := [];
      var rest := byNode.Keys;
      while rest != {}
        invariant rest <= byNode.Keys
        invariant NoDup(nodes)
        invariant forall h :: h in nodes ==>
          h.familyId == f && h.nodeId in byNode && h.nodeId !in rest && byNode[h.nodeId] == h
        invariant forall id :: id in byNode && id !in rest && byNode[id].familyId == f ==> byNode[id] in nodes
        decreases rest
      {
        var id :| id in rest;
        rest := rest - {id};
        if byNode[id].familyId == f {
          InsertNoDup(nodes, byNode[id], |nodes|);
          assert nodes[..|nodes|] + [byNode[id]] + nodes[|nodes|..] == nodes + [byNode[id]];
          nodes := nodes + [byNode[id]];
        }
      }
    }

    /**
     * Registers a node, stamping unset times. The invariant survives exactly when a node that was
     * already registered keeps its family: the old family's list is not rebuilt.
     */
    method Add(h: NodeHealth, now: Time)
      requires Valid() && now != 0
      modifies this, h
      ensures byNode == old(byNode)[h.nodeId := h]
      ensures Valid() <==> (h.nodeId in old(byNode) ==> old(byNode)[h.nodeId].familyId == h.familyId)
      ensures h.pref == old(h.pref)
      ensures h.joinedAt == if old(h.joinedAt) == 0 then now else old(h.joinedAt)
      ensures h.lastSeen == if old(h.lastSeen) == 0 then h.joinedAt else old(h.lastSeen)
    {
      if h.joinedAt == 0 { h.joinedAt := now; }
      if h.lastSeen == 0 { h.lastSeen := h.joinedAt; }
      forall f | f in byFamily ensures Sorted(byFamily[f]) {
        assert ListsFamily(byNode, f, Nodes(byFamily, f)) && old(Sorted(byFamily[f]));
        assert h in byFamily[f] ==> h.joinedAt == old(h.joinedAt);
        var nodes := byFamily[f];
        forall i, j | 0 <= i < j < |nodes| ensures !Better(nodes[j], nodes[i]) {
          assert nodes[i] in nodes && nodes[j] in nodes && !old(Better(nodes[j], nodes[i]));
        }
      }
      Insert(h);
    }

    method Insert(h: NodeHealth)
      requires Valid() && h.joinedAt != 0
      modifies this
      ensures byNode == old(byNode)[h.nodeId := h]
      ensures Valid() <==> (h.nodeId in old(byNode) ==> old(byNode)[h.nodeId].familyId == h.familyId)
    {
      ghost var before := byNode;
      OtherLists(byNode, byFamily, h);
      byNode := byNode[h.nodeId := h];
      RebuildFamilyIndex(h.familyId);
      if h.nodeId in before && before[h.nodeId].familyId != h.familyId {
        var g := before[h.nodeId].familyId;
        assert !ListsFamily(byNode, g, Nodes(byFamily, g));
      } else {
        forall g ensures ListsFamily(byNode, g, Nodes(byFamily, g)) {
          if g != h.familyId { assert ListsFamily(byNode, g, Nodes(old(byFamily), g)); }
        }
      }
    }

    method Remove(nodeId: string) returns (removed: Option<NodeHealth>)
      requires Valid()
      modifies this
      ensures Valid()
      ensures byNode == old(byNode) - {nodeId}
      ensures removed == if nodeId in old(byNode) then Some(old(byNode)[nodeId]) else None
    {
      if nodeId !in byNode { return None; }
      var h := byNode[nodeId];
      ghost var before := byNode;
      byNode := byNode - {nodeId};
      RebuildFamilyIndex(h.familyId);
      forall g ensures ListsFamily(byNode, g, Nodes(byFamily, g)) {
        assert ListsFamily(before, g, Nodes(old(byFamily), g));
      }
      return Some(h);
    }

    /** Liveness does not affect the order, so the index stays as it is. */
    method Touch(nodeId: string, now: Time)
      requires Valid()
      modifies if nodeId in byNode then {byNode[nodeId]} else {}
      ensures Valid()
      ensures nodeId in byNode ==> byNode[nodeId].lastSeen == now
      ensures nodeId in byNode ==>
                && byNode[nodeId].pref == old(byNode[nodeId].pref)
                && byNode[nodeId].joinedAt == old(byNode[nodeId].joinedAt)
    {
      if nodeId in byNode {
        var h := byNode[nodeId];
        h.lastSeen := now;
        forall g | g in byFamily ensures Sorted(byFamily[g]) {
          assert old(Sorted(byFamily[g]));
        }
      }
    }

    method SetPreference(nodeId: string, p: Preference)
      requires Valid()
      modifies this`byFamily, if nodeId in byNode then {byNode[nodeId]} else {}
      ensures Valid()
      ensures nodeId in byNode ==>
                && byNode[nodeId].pref == p
                && byNode[nodeId].joinedAt == old(byNode[nodeId].joinedAt)
                && byNode[nodeId].lastSeen == old(byNode[nodeId].lastSeen)
    {
      if nodeId !in byNode { return; }
      var h := byNode[nodeId];
      if h.pref == p { return; }
      h.pref := p;
      RebuildFamilyIndex(h.familyId);
      forall g ensures ListsFamily(byNode, g, Nodes(byFamily, g)) {
        assert ListsFamily(byNode, g, Nodes(old(byFamily), g));
      }
      forall g | g in byFamily ensures Sorted(byFamily[g]) {
        if g != h.familyId { assert ListsFamily(byNode, g, Nodes(old(byFamily), g)) && old(Sorted(byFamily[g])); }
      }
    }

    // -------------------------------------------------------------- queries

    ghost function HealthyIds(f: string, now: Time): set<string>
      reads this, Footprint()
    {
      set id | id in byNode && byNode[id].familyId == f && Healthy(byNode[id], now)
    }

    /** The family has a registered node. */
    ghost predicate Serves(f: string)
      reads this, Footprint()
    {
      exists id :: id in byNode && byNode[id].familyId == f
    }

    /** Registered for the family and seen within the last minute. */
    ghost predicate Alive(f: string, now: Time, id: string)
      reads this, Footprint()
    {
      id in byNode && byNode[id].familyId == f && now - byNode[id].lastSeen <= 60_000_000_000
    }

    /**
     * A live node of the family, or none if there is none; a primary node beats every secondary one, and
     * among equals the earlier join wins.
     */
    ghost predicate BestPick(f: string, now: Time, pick: Option<NodeHealth>)
      reads this, Footprint()
    {
      match pick
      case None => forall id :: !Alive(f, now, id)
      case Some(h) =>
        && Alive(f, now, h.nodeId) && byNode[h.nodeId] == h
        && forall id :: Alive(f, now, id) ==>
             var g := byNode[id];
             if g.pref == byNode[h.nodeId].pref then byNode[h.nodeId].joinedAt <= g.joinedAt
             else byNode[h.nodeId].pref == Primary
    }

    /** The first healthy node of the list is the best of all healthy nodes of the family. */
    method PickHealthyNode(f: string, now: Time) returns (pick: Option<NodeHealth>)
      requires Valid()
      ensures BestPick(f, now, pick)
    {
      var nodes := Nodes(byFamily, f);
      assert ListsFamily(byNode, f, nodes) && Sorted(nodes);
      var i := 0;
      while i < |nodes|
        invariant 0 <= i <= |nodes|
        invariant forall j :: 0 <= j < i ==> !Healthy(nodes[j], now)
      {
        assert nodes[i] in nodes;
        if Healthy(nodes[i], now) {
          forall id | Alive(f, now, id) ensures !Better(byNode[id], nodes[i]) {
            var j :| 0 <= j < |nodes| && nodes[j] == byNode[id];
          }
          return Some(nodes[i]);
        }
        i := i + 1;
      }
      forall id ensures !Alive(f, now, id) {
        if id in byNode && byNode[id].familyId == f {
          var j :| 0 <= j < |nodes| && nodes[j] == byNode[id];
        }
      }
      return None;
    }

    method FamilyStatus(f: string, now: Time) returns (st: Status)
      requires Valid()
      ensures st.healthyCount == |HealthyIds(f, now)|
      ensures st.totalCount == |Nodes(byFamily, f)| && (st.hasFallback <==> st.totalCount > 0)
      ensures st.hasFallback <==> Serves(f)
      ensures st.healthyCount > 0 ==> st.hasFallback
      ensures exists t :: IsFreshest(Nodes(byFamily, f), t) && st.lastSeenAgo == if t != 0 then now - t else 0
    {
      var nodes := Nodes(byFamily, f);
      assert ListsFamily(byNode, f, nodes);
      HealthyIdsOf(f, now, nodes);
      var healthy, freshest := 0, 0;
      var i := 0;
      while i < |nodes|
        invariant 0 <= i <= |nodes|
        invariant healthy == |HealthyAmong(nodes[..i], now)|
        invariant IsFreshest(nodes[..i], freshest)
      {
        OneMoreHealthy(nodes, i, now);
        OneMoreFreshest(nodes, i, freshest);
        if Healthy(nodes[i], now) { healthy := healthy + 1; }
        if nodes[i].lastSeen > freshest { freshest := nodes[i].lastSeen; }
        i := i + 1;
      }
      assert nodes[..i] == nodes;
      HealthyIdsOf(f, now, nodes);
      if |nodes| > 0 { assert nodes[0] in nodes; }
      st := Status(healthy, |nodes|, |nodes| > 0, if freshest != 0 then now - freshest else 0);
    }

    lemma HealthyIdsOf(f: string, now: Time, nodes: seq<NodeHealth>)
      requires ListsFamily(byNode, f, nodes) && KeyedById(byNode)
      ensures HealthyAmong(nodes, now) == HealthyIds(f, now)
      ensures forall i, j :: 0 <= i < j < |nodes| ==> nodes[i].nodeId != nodes[j].nodeId
    {
      forall id | id in HealthyIds(f, now) ensures id in HealthyAmong(nodes, now) {
        assert byNode[id] in nodes;
      }
      forall i, j | 0 <= i < j < |nodes| ensures nodes[i].nodeId != nodes[j].nodeId {
        assert nodes[i] in nodes && nodes[j] in nodes;
      }
    }

    /** Exactly the registered nodes that no family counts as healthy. */
    method SweepStale(now: Time) returns (stale: set<string>)
      ensures stale <= byNode.Keys
      ensures forall id :: id in byNode ==> (id in stale <==> now - byNode[id].lastSeen > 60_000_000_000)
      ensures forall id :: id in byNode ==> (id in stale <==> id !in HealthyIds(byNode[id].familyId, now))
    {
      stale := set id | id in byNode.Keys && !Healthy(byNode[id], now);
    }
  }
}
