/** Place of a virtual processor in sockets, dies, clusters, cores and threads. */
module CpuTopology {
  import opened Arithmetic

  datatype Topology = Topology(sockets: nat, dies: nat, clusters: nat, cores: nat, threads: nat)

  datatype Item = Item(socket: nat, die: nat, cluster: nat, core: nat, thread: nat)

  /** No level is empty, and the machine has as many places as eight bits can number. */
  predicate ValidTopology(t: Topology) {
    t.sockets >= 1 && t.dies >= 1 && t.clusters >= 1 && t.cores >= 1 && t.threads >= 1
    && Places(t) < 256
  }

  function Places(t: Topology): nat {
    t.sockets * t.dies * t.clusters * t.cores * t.threads
  }

  predicate Within(t: Topology, item: Item) {
    item.socket < t.sockets && item.die < t.dies && item.cluster < t.clusters
    && item.core < t.cores && item.thread < t.threads
  }

  function Quot(x: nat, d: nat): (q: nat)
    requires d >= 1
    ensures q <= x
  {
    DivBound(x, d);
    x / d
  }

  function Rem(x: nat, d: nat): (r: nat)
    requires d >= 1
    ensures r < d
  {
    x % d
  }

  /** The decomposition of the source: the id is narrowed to eight bits first. */
  function GetTopoItem(t: Topology, vcpuId: nat): Item
    requires t.dies >= 1 && t.clusters >= 1 && t.cores >= 1 && t.threads >= 1
  {
    var id := vcpuId % 256;
    NoZero(t);
    Item(Quot(id, t.dies * t.clusters * t.cores * t.threads),
         Rem(Quot(id, t.clusters * t.cores * t.threads), t.dies),
         Rem(Quot(id, t.cores * t.threads), t.clusters),
         Rem(Quot(id, t.threads), t.cores),
         Rem(id, t.threads))
  }

  /** The mixed-radix number of a place. */
  function Compose(t: Topology, item: Item): nat {
    (((item.socket * t.dies + item.die) * t.clusters + item.cluster) * t.cores + item.core) * t.threads
    + item.thread
  }

  lemma {:induction false} Positive(a: nat, b: nat)
    requires a >= 1 && b >= 1
    ensures a * b >= 1
  {
    MulMonotone(1, a, b);
  }

  lemma {:induction false} NoZero(t: Topology)
    requires t.dies >= 1 && t.clusters >= 1 && t.cores >= 1 && t.threads >= 1
    ensures t.cores * t.threads >= 1
    ensures t.clusters * t.cores * t.threads >= 1
    ensures t.dies * t.clusters * t.cores * t.threads >= 1
  {
    Positive(t.cores, t.threads);
    Positive(t.clusters, t.cores);
    Positive(t.clusters * t.cores, t.threads);
    Positive(t.dies, t.clusters);
    Positive(t.dies * t.clusters, t.cores);
    Positive(t.dies * t.clusters * t.cores, t.threads);
  }

  /** Dividing by a product is dividing twice. */
  lemma {:induction false} DivDiv(x: nat, a: nat, b: nat)
    requires a >= 1 && b >= 1
    ensures b * a >= 1 && Quot(x, b * a) == Quot(Quot(x, a), b)
  {
    hide Quot, Rem;
    Positive(b, a);
    var y, r := Quot(x, a), Rem(x, a);
    var q, s := Quot(y, b), Rem(y, b);
    Division(x, a);
    Division(y, b);
    Regroup(q, b, s, a);
    Below(s, b, r, a);
    QuotIs(x, b * a, q, s * a + r);
  }

  lemma {:induction false} Regroup(q: nat, b: nat, s: nat, a: nat)
    ensures (q * b + s) * a == q * (b * a) + s * a
  {
  }

  lemma {:induction false} QuotIs(x: nat, d: nat, q: nat, r: nat)
    requires r < d && x == q * d + r
    ensures Quot(x, d) == q
  {
    DivModUnique(x, d, q, r);
  }

  /** The same decomposition, one level at a time. */
  function Nested(t: Topology, id: nat): Item
    requires t.dies >= 1 && t.clusters >= 1 && t.cores >= 1 && t.threads >= 1
  {
    var cores := Quot(id, t.threads);
    var clusters := Quot(cores, t.cores);
    var dies := Quot(clusters, t.clusters);
    Item(Quot(dies, t.dies), Rem(dies, t.dies), Rem(clusters, t.clusters), Rem(cores, t.cores), Rem(id, t.threads))
  }

  lemma {:induction false} ItemIsNested(t: Topology, id: nat)
    requires t.dies >= 1 && t.clusters >= 1 && t.cores >= 1 && t.threads >= 1
    requires id < 256
    ensures GetTopoItem(t, id) == Nested(t, id)
  {
    hide Quot, Rem;
    NoZero(t);
    DivDiv(id, t.threads, t.cores);
    DivDiv(id, t.cores * t.threads, t.clusters);
    assert t.clusters * (t.cores * t.threads) == t.clusters * t.cores * t.threads;
    DivDiv(id, t.clusters * t.cores * t.threads, t.dies);
    assert t.dies * (t.clusters * t.cores * t.threads) == t.dies * t.clusters * t.cores * t.threads;
  }

  /** Composing inverts the decomposition, and the decomposition stays within the topology. */
  lemma {:induction false} DecomposeCompose(t: Topology, id: nat)
    requires ValidTopology(t) && id < Places(t)
    ensures Within(t, GetTopoItem(t, id)) && Compose(t, GetTopoItem(t, id)) == id
  {
    hide Places, Quot, Rem;
    assert Places(t) < 256;
    ItemIsNested(t, id);
    SocketBound(t, id);
    var cores := Quot(id, t.threads);
    var clusters := Quot(cores, t.cores);
    var dies := Quot(clusters, t.clusters);
    Division(id, t.threads);
    Division(cores, t.cores);
    Division(clusters, t.clusters);
    Division(dies, t.dies);
  }

  lemma {:induction false} Division(x: nat, d: nat)
    requires d >= 1
    ensures Quot(x, d) * d + Rem(x, d) == x
  {
  }

  lemma {:induction false} SocketBound(t: Topology, id: nat)
    requires ValidTopology(t) && id < Places(t)
    ensures GetTopoItem(t, id).socket < t.sockets
  {
    hide Quot, Rem, Places;
    assert Places(t) < 256;
    NoZero(t);
    PlacesGrouped(t);
    QuotBelow(id, t.dies * t.clusters * t.cores * t.threads, t.sockets);
  }

  lemma {:induction false} Assoc(a: nat, b: nat, c: nat)
    ensures (a * b) * c == a * (b * c)
  {
  }

  lemma {:induction false} PlacesGrouped(t: Topology)
    ensures Places(t) == t.sockets * (t.dies * t.clusters * t.cores * t.threads)
  {
    Assoc(t.sockets, t.dies, t.clusters);
    Assoc(t.sockets, t.dies * t.clusters, t.cores);
    Assoc(t.sockets, t.dies * t.clusters * t.cores, t.threads);
  }

  lemma {:induction false} QuotBelow(x: nat, d: nat, n: nat)
    requires d >= 1 && x < n * d
    ensures Quot(x, d) < n
  {
    hide Quot, Rem;
    Division(x, d);
    if Quot(x, d) >= n {
      MulMonotone(n, Quot(x, d), d);
    }
  }

  /** Every place within the topology has a number, and the decomposition finds the place again. */
  lemma {:induction false} ComposeDecompose(t: Topology, item: Item)
    requires ValidTopology(t) && Within(t, item)
    ensures Compose(t, item) < Places(t) && GetTopoItem(t, Compose(t, item)) == item
  {
    hide Places;
    var dies := item.socket * t.dies + item.die;
    var clusters := dies * t.clusters + item.cluster;
    var cores := clusters * t.cores + item.core;
    Below(item.socket, t.sockets, item.die, t.dies);
    Below(dies, t.sockets * t.dies, item.cluster, t.clusters);
    Below(clusters, t.sockets * t.dies * t.clusters, item.core, t.cores);
    Below(cores, t.sockets * t.dies * t.clusters * t.cores, item.thread, t.threads);
    assert Compose(t, item) < Places(t) by { PlacesIs(t); }
    DivModUnique(cores * t.threads + item.thread, t.threads, cores, item.thread);
    DivModUnique(cores, t.cores, clusters, item.core);
    DivModUnique(clusters, t.clusters, dies, item.cluster);
    DivModUnique(dies, t.dies, item.socket, item.die);
    ItemIsNested(t, Compose(t, item));
  }

  lemma {:induction false} PlacesIs(t: Topology)
    ensures Places(t) == t.sockets * t.dies * t.clusters * t.cores * t.threads
  {
  }

  lemma {:induction false} Below(q: nat, n: nat, r: nat, d: nat)
    requires q < n && r < d
    ensures q * d + r < n * d
  {
    MulMonotone(q + 1, n, d);
  }
}
