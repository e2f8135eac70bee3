/**
 * The topology parser of roleUtils.ts: channels and categories are folded into a map
 * from category id to the list of that category's layers, kept sorted by depth.
 */
module Topology {
  import opened Base
  import opened Names

  datatype ChannelKind = Category | Text | Other

  /** A guild channel as the engine reads it. */
  datatype Channel = Channel(id: Id, name: string, kind: ChannelKind, parent: Option<Id>)

  /** A depth-tagged channel under a category, with the role that governs it. */
  datatype Layer = Layer(depth: nat, channel: Id, roleName: string, feedName: Option<string>)

  /** The layers of each category, keyed by the category's id. */
  type LayerMap = map<Id, seq<Layer>>

  /** Discord gives every channel of a guild its own id. */
  ghost predicate UniqueIds(cs: seq<Channel>) {
    forall i, j :: 0 <= i < j < |cs| ==> cs[i].id != cs[j].id
  }

  // ---------------------------------------------------------------------------
  // The layer sort: a stable ascending sort by depth

  predicate SortedByDepth(s: seq<Layer>) {
    forall i, j :: 0 <= i < j < |s| ==> s[i].depth <= s[j].depth
  }

  /** The layers of `s` at depth `d`, in their order in `s`. */
  function WithDepth(s: seq<Layer>, d: nat): seq<Layer> {
    if s == [] then []
    else WithDepth(s[..|s| - 1], d) + (if s[|s| - 1].depth == d then [s[|s| - 1]] else [])
  }

  lemma {:induction false} WithDepthAppend(a: seq<Layer>, b: seq<Layer>, d: nat)
    ensures WithDepth(a + b, d) == WithDepth(a, d) + WithDepth(b, d)
  {
    if b == [] {
      assert a + b == a;
    } else {
      assert (a + b)[..|a + b| - 1] == a + b[..|b| - 1];
      assert (a + b)[|a + b| - 1] == b[|b| - 1];
      WithDepthAppend(a, b[..|b| - 1], d);
    }
  }

  lemma WithDepthSingle(y: Layer, d: nat)
    ensures WithDepth([y], d) == if y.depth == d then [y] else []
  {
    assert [y][..0] == [];
  }

  /** Insert `x` after every element whose depth is at most `x.depth`. */
  function InsertByDepth(s: seq<Layer>, x: Layer): seq<Layer> {
    if s == [] then [x]
    else if s[|s| - 1].depth <= x.depth then s + [x]
    else InsertByDepth(s[..|s| - 1], x) + [s[|s| - 1]]
  }

  lemma {:induction false} InsertByDepthMultiset(s: seq<Layer>, x: Layer)
    ensures multiset(InsertByDepth(s, x)) == multiset(s) + multiset{x}
  {
    if s != [] && s[|s| - 1].depth > x.depth {
      assert s == s[..|s| - 1] + [s[|s| - 1]];
      InsertByDepthMultiset(s[..|s| - 1], x);
    }
  }

  lemma {:induction false} InsertByDepthSorted(s: seq<Layer>, x: Layer)
    requires SortedByDepth(s)
    ensures SortedByDepth(InsertByDepth(s, x))
  {
    if s != [] && s[|s| - 1].depth > x.depth {
      var init, last := s[..|s| - 1], s[|s| - 1];
      InsertByDepthSorted(init, x);
      var r := InsertByDepth(init, x);
      InsertByDepthMultiset(init, x);
      forall i | 0 <= i < |r| ensures r[i].depth <= last.depth {
        assert r[i] in multiset(init) + multiset{x};
      }
    }
  }

  lemma {:induction false} InsertByDepthStable(s: seq<Layer>, x: Layer, d: nat)
    ensures WithDepth(InsertByDepth(s, x), d) == WithDepth(s + [x], d)
  {
    if s != [] && s[|s| - 1].depth > x.depth {
      var init, last := s[..|s| - 1], s[|s| - 1];
      assert s == init + [last];
      var r := InsertByDepth(init, x);
      assert InsertByDepth(s, x) == r + [last];
      assert s + [x] == (init + [last]) + [x];
      WithDepthSingle(x, d);
      WithDepthSingle(last, d);
      var wx, wl := WithDepth([x], d), WithDepth([last], d);
      assert wx + wl == wl + wx;
      calc {
        WithDepth(r + [last], d);
        { WithDepthAppend(r, [last], d); }
        WithDepth(r, d) + wl;
        { InsertByDepthStable(init, x, d); WithDepthAppend(init, [x], d); }
        WithDepth(init, d) + wx + wl;
        WithDepth(init, d) + wl + wx;
        { WithDepthAppend(init, [last], d); }
        WithDepth(init + [last], d) + wx;
        { WithDepthAppend(init + [last], [x], d); }
        WithDepth((init + [last]) + [x], d);
      }
    }
  }

  lemma InsertByDepthCorrect(s: seq<Layer>, x: Layer)
    requires SortedByDepth(s)
    ensures SortedByDepth(InsertByDepth(s, x))
    ensures multiset(InsertByDepth(s, x)) == multiset(s) + multiset{x}
    ensures forall d :: WithDepth(InsertByDepth(s, x), d) == WithDepth(s + [x], d)
  {
    InsertByDepthSorted(s, x);
    InsertByDepthMultiset(s, x);
    forall d ensures WithDepth(InsertByDepth(s, x), d) == WithDepth(s + [x], d) {
      InsertByDepthStable(s, x, d);
    }
  }

  /** Insertion sort, which is the stable sort ascending by depth. */
  function SortByDepth(s: seq<Layer>): (r: seq<Layer>)
    ensures SortedByDepth(r)
    ensures multiset(r) == multiset(s)
    ensures forall d :: WithDepth(r, d) == WithDepth(s, d)
  {
    if s == [] then []
    else
      var init, last := s[..|s| - 1], s[|s| - 1];
      var sorted := SortByDepth(init);
      assert s == init + [last];
      SortStep(init, sorted, last);
      InsertByDepth(sorted, last)
  }

  /** Inserting the last layer into the sorted prefix sorts the whole sequence. */
  lemma SortStep(init: seq<Layer>, sorted: seq<Layer>, x: Layer)
    requires SortedByDepth(sorted) && multiset(sorted) == multiset(init)
    requires forall d :: WithDepth(sorted, d) == WithDepth(init, d)
    ensures SortedByDepth(InsertByDepth(sorted, x))
    ensures multiset(InsertByDepth(sorted, x)) == multiset(init + [x])
    ensures forall d :: WithDepth(InsertByDepth(sorted, x), d) == WithDepth(init + [x], d)
  {
    InsertByDepthCorrect(sorted, x);
    forall d ensures WithDepth(InsertByDepth(sorted, x), d) == WithDepth(init + [x], d) {
      WithDepthAppend(sorted, [x], d);
      WithDepthAppend(init, [x], d);
    }
  }

  /**
   * A stable ascending sort is unique: two sequences sorted by depth that list the
   * layers of every depth in the same order are equal. So `SortByDepth` is exactly
   * what the source's stable `Array.prototype.sort` produces.
   */
  lemma {:induction false} StableSortUnique(a: seq<Layer>, b: seq<Layer>)
    requires SortedByDepth(a) && SortedByDepth(b)
    requires forall d :: WithDepth(a, d) == WithDepth(b, d)
    ensures a == b
  {
    if a == [] && b == [] {
    } else if b == [] {
      WithDepthLast(a);
    } else if a == [] {
      WithDepthLast(b);
    } else {
      var a', b' := a[..|a| - 1], b[..|b| - 1];
      StableSortLast(a, b);
      forall d ensures WithDepth(a', d) == WithDepth(b', d) {
        WithDepthInit(a, d);
        WithDepthInit(b, d);
      }
      StableSortUnique(a', b');
      assert a == a' + [a[|a| - 1]] && b == b' + [b[|b| - 1]];
    }
  }

  /** Two such sequences end with the same layer: the last of the deepest depth. */
  lemma StableSortLast(a: seq<Layer>, b: seq<Layer>)
    requires SortedByDepth(a) && SortedByDepth(b) && a != [] && b != []
    requires forall d :: WithDepth(a, d) == WithDepth(b, d)
    ensures a[|a| - 1] == b[|b| - 1]
  {
    var x, y := a[|a| - 1], b[|b| - 1];
    var wa, wb := WithDepth(a, x.depth), WithDepth(b, y.depth);
    assert wa == WithDepth(a[..|a| - 1], x.depth) + [x];
    assert wb == WithDepth(b[..|b| - 1], y.depth) + [y];
    assert WithDepth(b, x.depth) == wa;
    assert WithDepth(a, y.depth) == wb;
    WithDepthMember(b, x.depth, x);
    WithDepthMember(a, y.depth, y);
    assert x.depth == y.depth;
    assert wa == wb;
    assert x == wa[|wa| - 1];
    assert y == wb[|wb| - 1];
  }

  /** Dropping the last layer drops it from its own depth only. */
  lemma WithDepthInit(s: seq<Layer>, d: nat)
    requires s != []
    ensures WithDepth(s[..|s| - 1], d)
      == WithDepth(s, d)[..|WithDepth(s, d)| - (if s[|s| - 1].depth == d then 1 else 0)]
  {
    var w := WithDepth(s[..|s| - 1], d);
    if s[|s| - 1].depth == d {
      assert WithDepth(s, d) == w + [s[|s| - 1]];
      assert (w + [s[|s| - 1]])[..|w|] == w;
    } else {
      assert WithDepth(s, d) == w;
    }
  }

  lemma WithDepthLast(s: seq<Layer>)
    requires s != []
    ensures s[|s| - 1] in WithDepth(s, s[|s| - 1].depth)
  {
  }

  lemma {:induction false} WithDepthEmpty(s: seq<Layer>, d: nat)
    requires forall i :: 0 <= i < |s| ==> s[i].depth != d
    ensures WithDepth(s, d) == []
  {
    if s != [] {
      WithDepthEmpty(s[..|s| - 1], d);
    }
  }

  /** An element of a sorted sequence at depth `d` is no deeper than its last element. */
  lemma {:induction false} WithDepthMember(s: seq<Layer>, d: nat, x: Layer)
    requires SortedByDepth(s) && s != []
    requires x in WithDepth(s, d)
    ensures x in s && x.depth == d && d <= s[|s| - 1].depth
  {
    WithDepthSound(s, d, x);
    var i :| 0 <= i < |s| && s[i] == x;
  }

  lemma {:induction false} WithDepthSound(s: seq<Layer>, d: nat, x: Layer)
    requires x in WithDepth(s, d)
    ensures x in s && x.depth == d
  {
    if s != [] {
      var init := s[..|s| - 1];
      if x in WithDepth(init, d) {
        WithDepthSound(init, d, x);
      }
    }
  }

  lemma SortedMembers(s: seq<Layer>, x: Layer)
    requires x in multiset(s)
    ensures x in s
  {
  }

  // ---------------------------------------------------------------------------
  // getLayerMap

  /** The name of the channel with id `p` (the parent's name), or "" when there is none. */
  function ParentName(cs: seq<Channel>, p: Id): string {
    if cs == [] then ""
    else if cs[0].id == p then cs[0].name
    else ParentName(cs[1..], p)
  }

  /** `if (depth)`: a non-category channel whose parsed depth is present and nonzero. */
  predicate IsLayerChannel(c: Channel) {
    c.kind != Category && ChannelDepth(c.name).Some? && ChannelDepth(c.name).value != 0
  }

  /** The layer pushed for a layer channel; the parent is not checked to be a feed. */
  function LayerOf(c: Channel, cs: seq<Channel>): Layer
    requires IsLayerChannel(c) && c.parent.Some?
  {
    var feed := FeedName(ParentName(cs, c.parent.value));
    var depth := ChannelDepth(c.name).value;
    Layer(depth, c.id, RoleName(feed, depth), feed)
  }

  /** One step of the reduce; pushing into an absent key throws a TypeError. */
  function LayerStep(acc: Outcome<LayerMap>, c: Channel, cs: seq<Channel>): Outcome<LayerMap> {
    match acc
    case Throws => Throws
    case Returns(m) =>
      if c.kind == Category then Returns(m[c.id := []])
      else if !IsLayerChannel(c) then Returns(m)
      else if c.parent.None? || c.parent.value !in m then Throws
      else
        var p := c.parent.value;
        Returns(m[p := SortByDepth(m[p] + [LayerOf(c, cs)])])
  }

  /** The reduce over the first `n` channels. */
  function LayerMapUpTo(cs: seq<Channel>, n: nat): Outcome<LayerMap>
    requires n <= |cs|
  {
    if n == 0 then Returns(map[]) else LayerStep(LayerMapUpTo(cs, n - 1), cs[n - 1], cs)
  }

  /** The layer map of a guild; when it is built, every category is one of its keys. */
  function LayerMapOf(cs: seq<Channel>): (r: Outcome<LayerMap>)
    ensures r.Returns? ==> forall c :: c in cs && c.kind == Category ==> c.id in r.value
  {
    var r := LayerMapUpTo(cs, |cs|);
    if r.Returns? then
      LayerMapKeys(cs, |cs|, r.value);
      assert forall c :: c in cs && c.kind == Category ==> CategoryBefore(cs, c.id, |cs|) by {
        forall c | c in cs && c.kind == Category ensures CategoryBefore(cs, c.id, |cs|) {
          var j :| 0 <= j < |cs| && cs[j] == c;
        }
      }
      r
    else r
  }

  /** `getLayerMap`: the reduce into a mutable dictionary accumulator. */
  method GetLayerMap(cs: seq<Channel>) returns (r: Outcome<LayerMap>)
    ensures r == LayerMapOf(cs)
  {
    var total: LayerMap := map[];
    var i := 0;
    while i < |cs|
      invariant 0 <= i <= |cs|
      invariant LayerMapUpTo(cs, i) == Returns(total)
    {
      var cur := cs[i];
      if cur.kind == Category {
        total := total[cur.id := []];
      } else {
        var depth := ChannelDepth(cur.name);
        if depth.Some? && depth.value != 0 {
          var parentRoleName := FeedName(ParentName(cs, cur.parent.GetOr(0)));
          if cur.parent.None? || cur.parent.value !in total {
            ThrowsPersists(cs, i + 1, |cs|);
            return Throws;
          }
          var id := cur.parent.value;
          total := total[id := SortByDepth(total[id] + [Layer(depth.value, cur.id, RoleName(parentRoleName, depth.value), parentRoleName)])];
        }
      }
      i := i + 1;
    }
    return Returns(total);
  }

  lemma {:induction false} ThrowsPersists(cs: seq<Channel>, i: nat, n: nat)
    requires i <= n <= |cs|
    requires LayerMapUpTo(cs, i) == Throws
    ensures LayerMapUpTo(cs, n) == Throws
  {
    if n > i {
      ThrowsPersists(cs, i, n - 1);
    }
  }

  // ---------------------------------------------------------------------------
  // What the layer map contains

  /** Some category among the first `n` channels has id `k`. */
  ghost predicate CategoryBefore(cs: seq<Channel>, k: Id, n: nat)
    requires n <= |cs|
  {
    exists j :: 0 <= j < n && cs[j].kind == Category && cs[j].id == k
  }

  /** Every category seen so far is a key, and nothing else is. */
  lemma {:induction false} LayerMapKeys(cs: seq<Channel>, n: nat, m: LayerMap)
    requires n <= |cs| && LayerMapUpTo(cs, n) == Returns(m)
    ensures forall k :: k in m <==> CategoryBefore(cs, k, n)
  {
    if n > 0 {
      var prev := LayerMapUpTo(cs, n - 1);
      assert prev.Returns?;
      LayerMapKeys(cs, n - 1, prev.value);
      forall k ensures k in m <==> CategoryBefore(cs, k, n) {
        if CategoryBefore(cs, k, n - 1) {
          var j :| 0 <= j < n - 1 && cs[j].kind == Category && cs[j].id == k;
        }
        if CategoryBefore(cs, k, n) && !CategoryBefore(cs, k, n - 1) {
          var j :| 0 <= j < n && cs[j].kind == Category && cs[j].id == k;
          assert j == n - 1;
        }
      }
    }
  }

  /** The reduce throws exactly when some layer channel comes before its parent category, or has none. */
  lemma {:induction false} LayerMapThrowsIff(cs: seq<Channel>, n: nat)
    requires n <= |cs|
    ensures LayerMapUpTo(cs, n).Throws? <==>
      exists i :: 0 <= i < n && IsLayerChannel(cs[i]) && !(cs[i].parent.Some? && CategoryBefore(cs, cs[i].parent.value, i))
  {
    if n > 0 {
      LayerMapThrowsIff(cs, n - 1);
      var prev := LayerMapUpTo(cs, n - 1);
      if prev.Returns? {
        LayerMapKeys(cs, n - 1, prev.value);
      }
    }
  }

  /** Every list of the map is sorted ascending by depth. */
  lemma {:induction false} LayerMapSorted(cs: seq<Channel>, n: nat, m: LayerMap)
    requires n <= |cs| && LayerMapUpTo(cs, n) == Returns(m)
    ensures forall k :: k in m ==> SortedByDepth(m[k])
  {
    if n > 0 {
      LayerMapSorted(cs, n - 1, LayerMapUpTo(cs, n - 1).value);
    }
  }

  /** Every layer in the map was built from a layer channel whose parent is that key. */
  lemma {:induction false} LayerMapSound(cs: seq<Channel>, n: nat, m: LayerMap)
    requires n <= |cs| && LayerMapUpTo(cs, n) == Returns(m)
    ensures forall k, l :: k in m && l in m[k] ==>
      exists i :: 0 <= i < n && IsLayerChannel(cs[i]) && cs[i].parent == Some(k) && l == LayerOf(cs[i], cs)
  {
    if n > 0 {
      var prev := LayerMapUpTo(cs, n - 1).value;
      LayerMapSound(cs, n - 1, prev);
      var c := cs[n - 1];
      forall k, l | k in m && l in m[k]
        ensures exists i :: 0 <= i < n && IsLayerChannel(cs[i]) && cs[i].parent == Some(k) && l == LayerOf(cs[i], cs)
      {
        if c.kind != Category && IsLayerChannel(c) && k == c.parent.value {
          assert l in multiset(prev[k] + [LayerOf(c, cs)]);
          if l != LayerOf(c, cs) {
            assert l in prev[k];
          }
        } else if c.kind == Category && k == c.id {
          assert false;
        } else {
          assert l in prev[k];
        }
      }
    }
  }

  /** The layer of layer channel `c` sits under `c`'s parent in `m`. */
  ghost predicate HasLayer(cs: seq<Channel>, m: LayerMap, c: Channel)
    requires IsLayerChannel(c)
  {
    c.parent.Some? && c.parent.value in m && LayerOf(c, cs) in m[c.parent.value]
  }

  /** With distinct ids, every layer channel seen so far has its layer under its parent. */
  lemma {:induction false} LayerMapComplete(cs: seq<Channel>, n: nat, m: LayerMap)
    requires UniqueIds(cs)
    requires n <= |cs| && LayerMapUpTo(cs, n) == Returns(m)
    ensures forall i :: 0 <= i < n && IsLayerChannel(cs[i]) ==> HasLayer(cs, m, cs[i])
  {
    if n > 0 {
      var prev := LayerMapUpTo(cs, n - 1).value;
      LayerMapComplete(cs, n - 1, prev);
      LayerMapKeys(cs, n - 1, prev);
      forall i | 0 <= i < n && IsLayerChannel(cs[i]) ensures HasLayer(cs, m, cs[i]) {
        if i == n - 1 {
          var c := cs[i];
          assert LayerOf(c, cs) in multiset(prev[c.parent.value] + [LayerOf(c, cs)]);
        } else {
          HasLayerPreserved(cs, n, prev, m, i);
        }
      }
    }
  }

  /** Later steps keep a layer: its key is never reset (ids are distinct) and sorting keeps every element. */
  lemma HasLayerPreserved(cs: seq<Channel>, n: nat, prev: LayerMap, m: LayerMap, i: nat)
    requires UniqueIds(cs)
    requires 0 < n <= |cs| && i < n - 1 && IsLayerChannel(cs[i])
    requires LayerMapUpTo(cs, n - 1) == Returns(prev) && LayerMapUpTo(cs, n) == Returns(m)
    requires forall k :: k in prev <==> CategoryBefore(cs, k, n - 1)
    requires HasLayer(cs, prev, cs[i])
    ensures HasLayer(cs, m, cs[i])
  {
    var c := cs[n - 1];
    var p := cs[i].parent.value;
    var l := LayerOf(cs[i], cs);
    if c.kind == Category {
      var j :| 0 <= j < n - 1 && cs[j].kind == Category && cs[j].id == p;
      assert c.id != p;
    } else if IsLayerChannel(c) && c.parent.value == p {
      assert l in multiset(prev[p] + [LayerOf(c, cs)]);
    }
  }

  /**
   * A channel of the guild has a layer in the map exactly when it is a non-category
   * channel with a nonzero parsed depth; `p0` and untagged channels never do.
   */
  lemma LayerMembership(cs: seq<Channel>, m: LayerMap, c: Channel)
    requires UniqueIds(cs) && LayerMapOf(cs) == Returns(m) && c in cs
    ensures (exists k, l :: k in m && l in m[k] && l.channel == c.id) <==> IsLayerChannel(c)
    ensures IsLayerChannel(c) ==> c.parent.Some? && c.parent.value in m && LayerOf(c, cs) in m[c.parent.value]
  {
    LayerMapSound(cs, |cs|, m);
    LayerMapComplete(cs, |cs|, m);
    var i :| 0 <= i < |cs| && cs[i] == c;
    if exists k, l :: k in m && l in m[k] && l.channel == c.id {
      var k, l :| k in m && l in m[k] && l.channel == c.id;
      var j :| 0 <= j < |cs| && IsLayerChannel(cs[j]) && cs[j].parent == Some(k) && l == LayerOf(cs[j], cs);
      assert cs[j].id == c.id;
      assert i == j;
    }
    if IsLayerChannel(c) {
      assert HasLayer(cs, m, cs[i]);
    }
  }

  /**
   * A layer's role name is `<feedName> P<depth>`, its depth is at least 1, and its feed
   * name is whatever the parent's name parses to, marker or not.
   */
  lemma LayerShape(cs: seq<Channel>, m: LayerMap, k: Id, l: Layer)
    requires LayerMapOf(cs) == Returns(m) && k in m && l in m[k]
    ensures l.depth >= 1
    ensures l.feedName == FeedName(ParentName(cs, k))
    ensures l.roleName == RoleName(l.feedName, l.depth)
    ensures RoleDepth(l.roleName) == Some(l.depth) && StripPaceSuffix(l.roleName) == Render(l.feedName)
  {
    LayerMapSound(cs, |cs|, m);
    RoleNameRoundTrip(l.feedName, l.depth);
  }

  /** With distinct ids, a channel carries at most one layer in the whole map. */
  lemma LayerChannelDetermines(cs: seq<Channel>, m: LayerMap, k1: Id, k2: Id, l1: Layer, l2: Layer)
    requires UniqueIds(cs) && LayerMapOf(cs) == Returns(m)
    requires k1 in m && l1 in m[k1] && k2 in m && l2 in m[k2] && l1.channel == l2.channel
    ensures l1 == l2 && k1 == k2
  {
    LayerMapSound(cs, |cs|, m);
    var i :| 0 <= i < |cs| && IsLayerChannel(cs[i]) && cs[i].parent == Some(k1) && l1 == LayerOf(cs[i], cs);
    var j :| 0 <= j < |cs| && IsLayerChannel(cs[j]) && cs[j].parent == Some(k2) && l2 == LayerOf(cs[j], cs);
    assert cs[i].id == l1.channel == l2.channel == cs[j].id;
    assert i == j;
  }

  // ---------------------------------------------------------------------------
  // Categories, feeds and the flattened layer list

  /** The category channels, in channel order (the key order of the layer map). */
  function CategoryChannels(cs: seq<Channel>): (r: seq<Channel>)
    ensures forall c :: c in r <==> c in cs && c.kind == Category
  {
    if cs == [] then []
    else (if cs[0].kind == Category then [cs[0]] else []) + CategoryChannels(cs[1..])
  }

  /** `getFeedChannels` and `getWorkflowChannels`: categories whose name starts with the marker. */
  function FeedChannels(cs: seq<Channel>): (r: seq<Channel>)
    ensures forall c :: c in r <==> c in cs && c.kind == Category && IsWorkflow(c.name)
  {
    if cs == [] then []
    else (if cs[0].kind == Category && IsWorkflow(cs[0].name) then [cs[0]] else []) + FeedChannels(cs[1..])
  }

  /** Every category of the guild is a key of its layer map. */
  lemma CategoriesAreKeys(cs: seq<Channel>, m: LayerMap)
    requires LayerMapOf(cs) == Returns(m)
    ensures forall c :: c in cs && c.kind == Category ==> c.id in m
    ensures forall k :: k in m ==> exists c :: c in cs && c.kind == Category && c.id == k
  {
    LayerMapKeys(cs, |cs|, m);
    forall k | k in m ensures exists c :: c in cs && c.kind == Category && c.id == k {
      var j :| 0 <= j < |cs| && cs[j].kind == Category && cs[j].id == k;
      assert cs[j] in cs;
    }
  }

  /** All layers of the layer map, category by category in key order. */
  function AllLayers(m: LayerMap, cats: seq<Channel>): seq<Layer>
    requires forall c :: c in cats ==> c.id in m
  {
    if cats == [] then [] else m[cats[0].id] + AllLayers(m, cats[1..])
  }

  lemma {:induction false} AllLayersMembers(m: LayerMap, cats: seq<Channel>, l: Layer)
    requires forall c :: c in cats ==> c.id in m
    ensures l in AllLayers(m, cats) <==> exists c :: c in cats && l in m[c.id]
  {
    if cats != [] {
      AllLayersMembers(m, cats[1..], l);
      if l in AllLayers(m, cats) && l !in m[cats[0].id] {
        assert l in AllLayers(m, cats[1..]);
      }
      if exists c :: c in cats && l in m[c.id] {
        var c :| c in cats && l in m[c.id];
        if c != cats[0] {
          assert c in cats[1..];
        }
      }
    }
  }

  /** The layers of a guild, flattened: defined when the reduce does not throw. */
  function GuildLayers(cs: seq<Channel>): (r: Outcome<seq<Layer>>)
    ensures r.Returns? <==> LayerMapOf(cs).Returns?
  {
    match LayerMapOf(cs)
    case Throws => Throws
    case Returns(m) =>
      CategoriesAreKeys(cs, m);
      Returns(AllLayers(m, CategoryChannels(cs)))
  }

  /** The flattened list holds exactly the layers of the layer channels. */
  lemma GuildLayersMembers(cs: seq<Channel>, l: Layer)
    requires UniqueIds(cs) && GuildLayers(cs).Returns?
    ensures l in GuildLayers(cs).value <==>
      exists c :: c in cs && IsLayerChannel(c) && c.parent.Some? && l == LayerOf(c, cs)
  {
    if l in GuildLayers(cs).value {
      GuildLayersSound(cs, l);
    }
    if exists c :: c in cs && IsLayerChannel(c) && c.parent.Some? && l == LayerOf(c, cs) {
      var c :| c in cs && IsLayerChannel(c) && c.parent.Some? && l == LayerOf(c, cs);
      GuildLayersComplete(cs, c);
    }
  }

  /** Each layer of the flattened list comes from a layer channel. */
  lemma GuildLayersSound(cs: seq<Channel>, l: Layer)
    requires GuildLayers(cs).Returns? && l in GuildLayers(cs).value
    ensures exists c :: c in cs && IsLayerChannel(c) && c.parent.Some? && l == LayerOf(c, cs)
  {
    var m := LayerMapOf(cs).value;
    CategoriesAreKeys(cs, m);
    var cats := CategoryChannels(cs);
    AllLayersMembers(m, cats, l);
    LayerMapSound(cs, |cs|, m);
    var k :| k in cats && l in m[k.id];
    var i :| 0 <= i < |cs| && IsLayerChannel(cs[i]) && cs[i].parent == Some(k.id) && l == LayerOf(cs[i], cs);
    assert cs[i] in cs;
  }

  /** Each layer channel contributes its layer to the flattened list. */
  lemma GuildLayersComplete(cs: seq<Channel>, c: Channel)
    requires UniqueIds(cs) && GuildLayers(cs).Returns?
    requires c in cs && IsLayerChannel(c) && c.parent.Some?
    ensures LayerOf(c, cs) in GuildLayers(cs).value
  {
    var m := LayerMapOf(cs).value;
    var l := LayerOf(c, cs);
    CategoriesAreKeys(cs, m);
    var cats := CategoryChannels(cs);
    AllLayersMembers(m, cats, l);
    LayerMapComplete(cs, |cs|, m);
    var i :| 0 <= i < |cs| && cs[i] == c;
    var p := c.parent.value;
    assert l in m[p];
    var q :| q in cs && q.kind == Category && q.id == p;
    assert q in cats;
  }

  /** Every layer of the flattened list has the shape `<feedName> P<depth>` with depth at least 1. */
  lemma GuildLayerShape(cs: seq<Channel>, l: Layer)
    requires GuildLayers(cs).Returns? && l in GuildLayers(cs).value
    ensures l.depth >= 1 && l.roleName == RoleName(l.feedName, l.depth)
    ensures RoleDepth(l.roleName) == Some(l.depth) && StripPaceSuffix(l.roleName) == Render(l.feedName)
  {
    var m := LayerMapOf(cs).value;
    CategoriesAreKeys(cs, m);
    AllLayersMembers(m, CategoryChannels(cs), l);
    var c :| c in CategoryChannels(cs) && l in m[c.id];
    LayerShape(cs, m, c.id, l);
  }

  /**
   * One feed name per
   * feed category, in channel order, the fallback standing in for a name that does not parse.
   */
  function FeedPrefixes(cs: seq<Channel>, fallback: string): (r: seq<string>)
    ensures |r| == |FeedChannels(cs)|
    ensures forall p :: p in r <==> exists c :: c in cs && c.kind == Category && IsWorkflow(c.name) && p == FeedName(c.name).GetOr(fallback)
  {
    var fs := FeedChannels(cs);
    var r := seq(|fs|, i requires 0 <= i < |fs| => FeedName(fs[i].name).GetOr(fallback));
    assert forall p :: p in r ==> exists c :: c in fs && p == FeedName(c.name).GetOr(fallback);
    assert forall c :: c in fs ==> FeedName(c.name).GetOr(fallback) in r by {
      forall c | c in fs ensures FeedName(c.name).GetOr(fallback) in r {
        var i :| 0 <= i < |fs| && fs[i] == c;
        assert r[i] == FeedName(c.name).GetOr(fallback);
      }
    }
    r
  }
}
