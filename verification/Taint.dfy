/** Exploiter detection: seeds are expanded through the address clusters, flooded through the
transaction graph to a fixed point, and cross-referenced once with the miner identity keys. */
module Taint {
  import opened Wrappers
  import opened Connectivity
  import Sorting
  import UF = UnionFind

  /** `address` is None where the scanner stored an empty string. */
  datatype Output = Output(address: Option<Name>, isOpReturn: bool)
  datatype Tx = Tx(inputs: set<Name>, outputs: seq<Output>)
  datatype Info = Info(mik: string, received: int, sent: int)
  datatype Tag = Confirmed | Legitimate | Unknown

  /** A transaction pays the name: an output that is no metadata goes to it. */
  predicate PaysTo(tx: Tx, a: Name) {
    exists o | o in tx.outputs :: o.address == Some(a) && !o.isOpReturn
  }

  /** Both transaction rules: a tainted input, or a payment to a tainted address. */
  predicate Touches(tx: Tx, s: set<Name>) {
    exists a | a in s :: a in tx.inputs || PaysTo(tx, a)
  }

  predicate Respects(tx: Tx, whitelist: set<Name>, s: set<Name>) {
    Touches(tx, s) ==> tx.inputs - whitelist <= s
  }

  predicate Closed(txs: seq<Tx>, whitelist: set<Name>, s: set<Name>) {
    forall tx | tx in txs :: Respects(tx, whitelist, s)
  }

  /** `s` is the least set that contains `start` and is closed under both rules. */
  ghost predicate IsLeast(txs: seq<Tx>, whitelist: set<Name>, start: set<Name>, s: set<Name>) {
    && start <= s && Closed(txs, whitelist, s)
    && forall u {:trigger Closed(txs, whitelist, u)} | start <= u && Closed(txs, whitelist, u) :: s <= u
  }

  /** The fixed point depends only on which transactions there are, not on their order or number. */
  lemma FixedPointIgnoresOrder(txs: seq<Tx>, txs': seq<Tx>, whitelist: set<Name>,
                               start: set<Name>, s: set<Name>, s': set<Name>)
    requires forall tx :: tx in txs <==> tx in txs'
    requires IsLeast(txs, whitelist, start, s) && IsLeast(txs', whitelist, start, s')
    ensures s == s'
  {
    assert Closed(txs, whitelist, s') && Closed(txs', whitelist, s);
  }

  function Universe(txs: seq<Tx>, start: set<Name>): set<Name> {
    start + set tx, a | tx in txs && a in tx.inputs :: a
  }

  function Targets(tx: Tx): set<Name> {
    set o | o in tx.outputs && o.address.Some? && !o.isOpReturn :: o.address.value
  }

  lemma TouchesExact(tx: Tx, s: set<Name>)
    ensures Touches(tx, s) <==> tx.inputs * s != {} || Targets(tx) * s != {}
  {
    assert forall a :: a in Targets(tx) <==> PaysTo(tx, a);
    if Touches(tx, s) {
      var a :| a in s && (a in tx.inputs || PaysTo(tx, a));
      assert a in tx.inputs * s || a in Targets(tx) * s;
    }
    if tx.inputs * s != {} {
      var a :| a in tx.inputs * s;
      assert a in s && a in tx.inputs;
    } else if Targets(tx) * s != {} {
      var a :| a in Targets(tx) * s;
      assert a in s && PaysTo(tx, a);
    }
  }

  /** One transaction of a pass: what both rules add, in the order the scan applies them. */
  method ApplyRules(tx: Tx, whitelist: set<Name>, tainted: set<Name>) returns (t: set<Name>)
    ensures t == if Touches(tx, tainted) then tainted + (tx.inputs - whitelist) else tainted
  {
    t := tainted;
    if tx.inputs * t != {} {
      t := t + (tx.inputs - whitelist);
    }
    if Targets(tx) * t != {} && |tx.inputs| > 0 {
      t := t + (tx.inputs - whitelist);
    }
    TouchesExact(tx, tainted);
  }

  /** The flood-fill loop: repeats whole passes until one changes nothing. */
  method Flood(txs: seq<Tx>, whitelist: set<Name>, start: set<Name>) returns (tainted: set<Name>)
    ensures IsLeast(txs, whitelist, start, tainted)
    ensures tainted * whitelist == start * whitelist
  {
    tainted := start;
    ghost var all := Universe(txs, start);
    var changed := true;
    while changed
      invariant start <= tainted <= all && tainted * whitelist == start * whitelist
      invariant forall u {:trigger Closed(txs, whitelist, u)} | start <= u && Closed(txs, whitelist, u) :: tainted <= u
      invariant !changed ==> Closed(txs, whitelist, tainted)
      decreases all - tainted, changed
    {
      ghost var before := tainted;
      changed := false;
      for i := 0 to |txs|
        invariant before <= tainted <= all && tainted * whitelist == start * whitelist
        invariant changed <==> tainted != before
        invariant forall u {:trigger Closed(txs, whitelist, u)} | start <= u && Closed(txs, whitelist, u) ::
                    tainted <= u
        invariant !changed ==> forall j | 0 <= j < i :: Respects(txs[j], whitelist, tainted)
      {
        var t := ApplyRules(txs[i], whitelist, tainted);
        assert txs[i] in txs;
        forall u {:trigger Closed(txs, whitelist, u)} | start <= u && Closed(txs, whitelist, u) ensures t <= u {
          assert Respects(txs[i], whitelist, u);
        }
        assert forall a | a in txs[i].inputs :: a in all;
        if t != tainted { changed := true; }
        tainted := t;
      }
    }
  }

  // ---- The whole detection ----

  /** Seeds, and everything not whitelisted that the clusters connect to a seed. */
  ghost predicate InStart(seeds: set<Name>, whitelist: set<Name>, unions: Pairs, a: Name) {
    a in seeds || (a !in whitelist && exists s | s in seeds :: Connected(unions, s, a))
  }

  /** The identity pass: for each tainted name with a key, every listed name under that key that is neither
      whitelisted nor tainted already. An empty key links nobody. */
  method CrossReference(info: map<Name, Info>, whitelist: set<Name>, tainted: set<Name>) returns (peers: set<Name>)
    ensures forall b :: b in peers <==>
              && b in info && b !in whitelist && b !in tainted
              && exists a | a in tainted && a in info :: info[a].mik != "" && info[a].mik == info[b].mik
  {
    peers := {};
    var done := {};
    while done != tainted
      invariant done <= tainted
      invariant forall b :: b in peers <==>
                  && b in info && b !in whitelist && b !in tainted
                  && exists a | a in done && a in info :: info[a].mik != "" && info[a].mik == info[b].mik
      decreases |tainted - done|
    {
      var a :| a in tainted - done;
      if a in info && info[a].mik != "" {
        var key := info[a].mik;
        peers := peers + set b | b in info && info[b].mik == key && b !in whitelist && b !in tainted;
      }
      done := done + {a};
    }
  }

  lemma InStartStep(done: set<Name>, s: Name, whitelist: set<Name>, unions: Pairs, a: Name)
    ensures InStart(done + {s}, whitelist, unions, a) <==>
            InStart(done, whitelist, unions, a) || a == s || (a !in whitelist && Connected(unions, s, a))
  {
    if a !in whitelist && exists x | x in done + {s} :: Connected(unions, x, a) {
      var x :| x in done + {s} && Connected(unions, x, a);
      assert x in done || x == s;
    }
  }

  /** Expands the seeds through their clusters. */
  method ExpandSeeds(uf: UF.UnionFind, seeds: set<Name>, whitelist: set<Name>) returns (start: set<Name>)
    requires uf.Valid()
    modifies uf
    ensures uf.Valid() && uf.unions == old(uf.unions)
    ensures forall a :: a in start <==> InStart(seeds, whitelist, uf.unions, a)
  {
    start := {};
    var done := {};
    while done != seeds
      invariant uf.Valid() && uf.unions == old(uf.unions) && done <= seeds
      invariant forall a :: a in start <==> InStart(done, whitelist, uf.unions, a)
      decreases |seeds - done|
    {
      var s :| s in seeds - done;
      start := ExpandOne(uf, s, whitelist, start, done);
      done := done + {s};
    }
  }

  method ExpandOne(uf: UF.UnionFind, s: Name, whitelist: set<Name>, start: set<Name>, ghost done: set<Name>)
    returns (start': set<Name>)
    requires uf.Valid() && forall a :: a in start <==> InStart(done, whitelist, uf.unions, a)
    modifies uf
    ensures uf.Valid() && uf.unions == old(uf.unions)
    ensures forall a :: a in start' <==> InStart(done + {s}, whitelist, uf.unions, a)
  {
    var cluster := uf.GetCluster(s);
    start' := start + {s} + (cluster - whitelist);
    forall a ensures a in start' <==> InStart(done + {s}, whitelist, uf.unions, a) {
      InStartStep(done, s, whitelist, uf.unions, a);
    }
  }

  function Retag(tags: map<Name, Tag>, names: set<Name>, tag: Tag): map<Name, Tag> {
    tags + map a | a in names :: tag
  }

  /** The tags in the order the detector writes them; later writes win. */
  function FinalTags(whitelist: set<Name>, blacklist: set<Name>, seeds: set<Name>, start: set<Name>,
                     core: set<Name>, peers: set<Name>, seen: set<Name>): map<Name, Tag>
  {
    var t1 := Retag(Retag(map[], whitelist, Legitimate), blacklist - whitelist, Confirmed);
    var t2 := Retag(Retag(t1, seeds, Confirmed), start, Confirmed);
    var t3 := Retag(Retag(t2, core - start, Confirmed), peers, Confirmed);
    Retag(t3, seen - t3.Keys, Unknown)
  }

  /** What one address ends up as. */
  lemma TagOf(whitelist: set<Name>, blacklist: set<Name>, seeds: set<Name>, start: set<Name>,
              core: set<Name>, peers: set<Name>, seen: set<Name>, a: Name)
    requires seeds <= start <= core
    ensures var tags := FinalTags(whitelist, blacklist, seeds, start, core, peers, seen);
            if a in core || a in peers || a in blacklist - whitelist then a in tags && tags[a].Confirmed?
            else if a in whitelist then a in tags && tags[a].Legitimate?
            else if a in seen then a in tags && tags[a].Unknown?
            else a !in tags
  {
  }

  /** Tag soundness: the confirmed addresses are exactly the tainted ones and the blacklist without the
      whitelist, and a whitelisted address that is no seed stays legitimate. */
  lemma TagsAreSound(whitelist: set<Name>, blacklist: set<Name>, seeds: set<Name>, start: set<Name>,
                     core: set<Name>, peers: set<Name>, seen: set<Name>)
    requires seeds <= start <= core && core * whitelist <= seeds && peers !! whitelist
    ensures var tags := FinalTags(whitelist, blacklist, seeds, start, core, peers, seen);
            && (forall a :: a in tags && tags[a].Confirmed? <==> a in core + peers || a in blacklist - whitelist)
            && (forall a | a in whitelist && a !in seeds :: a in tags && tags[a].Legitimate?)
            && (forall a :: a in tags <==> a in core + peers || a in blacklist || a in whitelist || a in seen)
  {
    var tags := FinalTags(whitelist, blacklist, seeds, start, core, peers, seen);
    forall a
      ensures a in tags && tags[a].Confirmed? <==> a in core + peers || a in blacklist - whitelist
      ensures a in whitelist && a !in seeds ==> a in tags && tags[a].Legitimate?
      ensures a in tags <==> a in core + peers || a in blacklist || a in whitelist || a in seen
    {
      TagOf(whitelist, blacklist, seeds, start, core, peers, seen, a);
      assert a in core && a in whitelist ==> a in core * whitelist;
    }
  }

  /** The whole detection. `core` is the flood's fixed point, to which the identity pass adds once. */
  method Detect(uf: UF.UnionFind, txs: seq<Tx>, info: map<Name, Info>,
                seeds: set<Name>, whitelist: set<Name>, blacklist: set<Name>)
    returns (tainted: set<Name>, tags: map<Name, Tag>, ghost start: set<Name>, ghost core: set<Name>)
    requires uf.Valid()
    modifies uf
    ensures uf.Valid() && uf.unions == old(uf.unions)
    ensures forall a :: a in start <==> InStart(seeds, whitelist, uf.unions, a)
    ensures IsLeast(txs, whitelist, start, core)
    ensures core <= tainted
    ensures forall b | b !in core :: b in tainted <==>
              && b in info && b !in whitelist
              && exists a | a in core && a in info :: info[a].mik != "" && info[a].mik == info[b].mik
    ensures (forall a | a in core && a in info :: info[a].mik == "") ==> tainted == core
    ensures forall a :: a in tags && tags[a].Confirmed? <==> a in tainted || a in blacklist - whitelist
    ensures forall a | a in whitelist && a !in seeds :: a in tags && tags[a].Legitimate?
    ensures forall a :: a in tags <==> a in tainted || a in blacklist || a in whitelist || a in info
  {
    tags := Retag(map[], whitelist, Legitimate);
    tags := Retag(tags, blacklist - whitelist, Confirmed);
    tags := Retag(tags, seeds, Confirmed);
    var expanded := ExpandSeeds(uf, seeds, whitelist);
    tags := Retag(tags, expanded, Confirmed);
    var flooded := Flood(txs, whitelist, expanded);
    tags := Retag(tags, flooded - expanded, Confirmed);
    var peers := CrossReference(info, whitelist, flooded);
    tags := Retag(tags, peers, Confirmed);
    tags := Retag(tags, info.Keys - tags.Keys, Unknown);
    tainted, start, core := flooded + peers, expanded, flooded;
    TagsAreSound(whitelist, blacklist, seeds, expanded, flooded, peers, info.Keys);
  }

  // ---- The pre-fund lists ----

  datatype Entry = Entry(address: Name, balance: int, tag: Tag)

  function Balance(info: map<Name, Info>, a: Name): int {
    if a in info then info[a].received - info[a].sent else 0
  }

  ghost predicate Listed(list: seq<Entry>, a: Name) {
    exists e | e in list :: e.address == a
  }

  /** No address twice. */
  ghost predicate Once(list: seq<Entry>) {
    && (forall e | e in list :: multiset(list)[e] == 1)
    && (forall e, f | e in list && f in list && e.address == f.address :: e == f)
  }

  function ByBalance(e: Entry): int {
    e.balance
  }

  /** The list holds, once each, exactly the tagged addresses with a positive balance that are on its side. */
  ghost predicate Holds(list: seq<Entry>, tags: map<Name, Tag>, info: map<Name, Info>,
                        done: set<Name>, confirmed: bool)
  {
    && Once(list)
    && (forall e | e in list ::
          && e.address in tags && e.tag == tags[e.address]
          && e.balance == if e.address in info then info[e.address].received - info[e.address].sent else 0)
    && (forall a :: Listed(list, a) <==>
          a in done && a in tags && Balance(info, a) > 0 && tags[a].Confirmed? == confirmed)
  }

  /** Splits the tagged addresses with a positive balance: each appears exactly once, among the excluded
      when it is a confirmed exploiter and among the included otherwise, both lists by falling balance. */
  method BuildPrefund(tags: map<Name, Tag>, info: map<Name, Info>) returns (included: seq<Entry>, excluded: seq<Entry>)
    ensures Holds(included, tags, info, tags.Keys, false) && Holds(excluded, tags, info, tags.Keys, true)
    ensures Sorting.Descending(ByBalance, included) && Sorting.Descending(ByBalance, excluded)
  {
    included, excluded := [], [];
    var done := {};
    while done != tags.Keys
      invariant done <= tags.Keys
      invariant Holds(included, tags, info, done, false) && Holds(excluded, tags, info, done, true)
      decreases |tags.Keys - done|
    {
      var a :| a in tags.Keys - done;
      var entry := Entry(a, Balance(info, a), tags[a]);
      HoldsStep(included, tags, info, done, false, a);
      HoldsStep(excluded, tags, info, done, true, a);
      if entry.balance > 0 {
        if entry.tag.Confirmed? {
          excluded := excluded + [entry];
        } else {
          included := included + [entry];
        }
      }
      done := done + {a};
    }
    HoldsSorted(included, tags, info, false);
    HoldsSorted(excluded, tags, info, true);
    included := Sorting.Sort(ByBalance, included);
    excluded := Sorting.Sort(ByBalance, excluded);
  }

  lemma ListedSnoc(list: seq<Entry>, e: Entry)
    ensures forall x :: x in list + [e] <==> x in list || x == e
    ensures forall b :: Listed(list + [e], b) <==> Listed(list, b) || b == e.address
  {
    forall b ensures Listed(list + [e], b) <==> Listed(list, b) || b == e.address {
      if Listed(list, b) {
        var x :| x in list && x.address == b;
        assert x in list + [e];
      }
      assert e in list + [e];
    }
  }

  lemma OnceSnoc(list: seq<Entry>, e: Entry)
    requires Once(list) && !Listed(list, e.address)
    ensures Once(list + [e])
  {
    ListedSnoc(list, e);
  }

  lemma HoldsStep(list: seq<Entry>, tags: map<Name, Tag>, info: map<Name, Info>,
                  done: set<Name>, confirmed: bool, a: Name)
    requires Holds(list, tags, info, done, confirmed) && a in tags && a !in done
    ensures var belongs := Balance(info, a) > 0 && tags[a].Confirmed? == confirmed;
            var e := Entry(a, Balance(info, a), tags[a]);
            Holds(if belongs then list + [e] else list, tags, info, done + {a}, confirmed)
  {
    if Balance(info, a) > 0 && tags[a].Confirmed? == confirmed {
      var e := Entry(a, Balance(info, a), tags[a]);
      ListedSnoc(list, e);
      OnceSnoc(list, e);
    }
  }

  lemma HoldsSorted(list: seq<Entry>, tags: map<Name, Tag>, info: map<Name, Info>, confirmed: bool)
    requires Holds(list, tags, info, tags.Keys, confirmed)
    ensures Holds(Sorting.Sort(ByBalance, list), tags, info, tags.Keys, confirmed)
    ensures Sorting.Descending(ByBalance, Sorting.Sort(ByBalance, list))
  {
    var r := Sorting.Sort(ByBalance, list);
    Sorting.Permutes(ByBalance, list);
    Sorting.Descends(ByBalance, list);
    SameElements(r, list);
    forall a ensures Listed(r, a) <==> Listed(list, a) {
      if Listed(r, a) {
        var e :| e in r && e.address == a;
        assert e in list;
      }
      if Listed(list, a) {
        var e :| e in list && e.address == a;
        assert e in r;
      }
    }
  }

  lemma SameElements(r: seq<Entry>, list: seq<Entry>)
    requires multiset(r) == multiset(list)
    ensures forall e :: e in r <==> e in list
  {
    forall e ensures e in r <==> e in list {
      assert e in r <==> e in multiset(r);
      assert e in list <==> e in multiset(list);
    }
  }
}
