/**
 * The reaction handler of Starboard.cmd.ts: when a message gets its sparkle reaction and
 * the count hits the threshold for the channel's human audience exactly, repost it one
 * pace layer up (toward depth 0) in the same feed.
 */
module Starboard {
  import opened Base
  import opened Names
  import opened Topology
  import opened Server

  /** The emoji name the handler compares with, as written: the UTF-8 bytes of ✨ read as Windows-1252. */
  const SparkleAsWritten: string := "\U{00E2}\U{0153}\U{00A8}"

  /** ✨ (U+2728), the reaction the help text asks users to give. */
  const Sparkle: string := "\U{2728}"

  /**
   * A reaction-add event as the handler reads it: the emoji's name, the reaction count
   * (`null` when unknown), the message, the channel it was posted in, and how many non-bot
   * members can see that channel.
   */
  datatype Reaction = Reaction(emoji: string, count: Option<nat>, message: Id, channel: Channel, humans: nat)

  /** Nothing to do, the channel is the top layer of its feed, or repost into `target`. */
  datatype Decision = Ignore | AtTop | Repost(target: Id)

  // ---------------------------------------------------------------------------
  // The threshold: the ceiling of 1.3 times the square root of half the member count

  /** `k` is the least natural number with `1.3 * sqrt(n / 2) <= k`, that is `169 n <= 200 k^2`. */
  predicate IsThreshold(n: nat, k: nat) {
    169 * n <= 200 * k * k && (k == 0 || 200 * (k - 1) * (k - 1) < 169 * n)
  }

  function Threshold(n: nat): (k: nat)
    ensures IsThreshold(n, k)
  {
    ThresholdFrom(n, 0)
  }

  /** The search for the threshold upward from `k`, every smaller value being too small. */
  function ThresholdFrom(n: nat, k: nat): (r: nat)
    requires k == 0 || 200 * (k - 1) * (k - 1) < 169 * n
    decreases n - k
    ensures IsThreshold(n, r)
  {
    if 169 * n <= 200 * k * k then k
    else
      SquareAtLeast(k);
      ThresholdFrom(n, k + 1)
  }

  lemma SquareAtLeast(k: nat)
    ensures k <= k * k
  {
  }

  lemma {:induction false} SquareMonotone(a: nat, b: nat)
    ensures a <= b ==> a * a <= b * b
  {
    if a <= b {
      assert a * a <= a * b by {
        MulLeft(a, a, b);
      }
      assert a * b <= b * b by {
        MulLeft(b, a, b);
      }
    }
  }

  lemma MulLeft(c: nat, a: nat, b: nat)
    requires a <= b
    ensures c * a <= c * b
  {
  }

  /** The threshold is the only natural number with its defining property. */
  lemma ThresholdUnique(n: nat, k: nat)
    requires IsThreshold(n, k)
    ensures k == Threshold(n)
  {
    var t := Threshold(n);
    if k > 0 {
      SquareMonotone(t, k - 1);
    }
    if t > 0 {
      SquareMonotone(k, t - 1);
    }
  }

  /** With 8 people the threshold is 3: a third reaction fires, a second or fourth does not. */
  lemma ThresholdOfEight()
    ensures Threshold(8) == 3
    ensures Threshold(0) == 0 && Threshold(1) == 1 && Threshold(2) == 2
  {
    ThresholdUnique(8, 3);
    ThresholdUnique(0, 0);
    ThresholdUnique(1, 1);
    ThresholdUnique(2, 2);
  }

  /** The threshold never decreases as the audience grows. */
  lemma ThresholdMonotone(a: nat, b: nat)
    requires a <= b
    ensures Threshold(a) <= Threshold(b)
  {
    var ta, tb := Threshold(a), Threshold(b);
    if ta > 0 {
      SquareMonotone(tb, ta - 1);
    }
  }

  // ---------------------------------------------------------------------------
  // Deduplication by role name: the first layer of each role name

  function Dedupe(ls: seq<Layer>): seq<Layer> {
    DedupeFrom(ls, {})
  }

  /** The pass of `dedupe` over `ls`, the role names in `seen` being taken already. */
  function DedupeFrom(ls: seq<Layer>, seen: set<string>): (r: seq<Layer>)
    ensures forall x :: x in r ==> x in ls && x.roleName !in seen
  {
    if ls == [] then []
    else if ls[0].roleName in seen then DedupeFrom(ls[1..], seen)
    else [ls[0]] + DedupeFrom(ls[1..], seen + {ls[0].roleName})
  }

  /** `x` is the first layer of `ls` with its role name. */
  predicate FirstOfName(ls: seq<Layer>, x: Layer) {
    exists i :: 0 <= i < |ls| && ls[i] == x && forall j :: 0 <= j < i ==> ls[j].roleName != x.roleName
  }

  /** A layer survives exactly when it is the first of its role name and the name is not taken. */
  lemma {:induction false} DedupeFromKeepsFirst(ls: seq<Layer>, seen: set<string>, x: Layer)
    decreases ls
    ensures x in DedupeFrom(ls, seen) <==> FirstOfName(ls, x) && x.roleName !in seen
  {
    if ls != [] {
      var n0 := ls[0].roleName;
      var seen' := if n0 in seen then seen else seen + {n0};
      DedupeFromKeepsFirst(ls[1..], seen', x);
      if FirstOfName(ls[1..], x) && x.roleName !in seen' {
        var i :| 0 <= i < |ls[1..]| && ls[1..][i] == x && forall j :: 0 <= j < i ==> ls[1..][j].roleName != x.roleName;
        assert ls[i + 1] == x;
        forall j | 0 <= j < i + 1 ensures ls[j].roleName != x.roleName {
          if j > 0 {
            assert ls[j] == ls[1..][j - 1];
          }
        }
      }
      if FirstOfName(ls, x) && x.roleName !in seen && x != ls[0] {
        var i :| 0 <= i < |ls| && ls[i] == x && forall j :: 0 <= j < i ==> ls[j].roleName != x.roleName;
        assert i > 0;
        assert ls[1..][i - 1] == x;
        forall j | 0 <= j < i - 1 ensures ls[1..][j].roleName != x.roleName {
          assert ls[1..][j] == ls[j + 1];
        }
      }
      if x == ls[0] && n0 !in seen {
        assert FirstOfName(ls, x) by {
          assert ls[0] == x;
        }
      }
    }
  }

  /** `dedupe` keeps exactly the first layer of each role name. */
  lemma DedupeKeepsFirst(ls: seq<Layer>, x: Layer)
    ensures x in Dedupe(ls) <==> FirstOfName(ls, x)
  {
    DedupeFromKeepsFirst(ls, {}, x);
  }

  /** Every role name of `ls` is still represented after `dedupe`. */
  lemma DedupeCovers(ls: seq<Layer>, l: Layer)
    requires l in ls
    ensures exists x :: x in Dedupe(ls) && x.roleName == l.roleName
  {
    var k :| 0 <= k < |ls| && ls[k] == l;
    var i := FirstIndexOfName(ls, l.roleName, k);
    assert FirstOfName(ls, ls[i]);
    DedupeKeepsFirst(ls, ls[i]);
  }

  /** The first index of `ls` carrying role name `name`, which index `k` carries. */
  lemma {:induction false} FirstIndexOfName(ls: seq<Layer>, name: string, k: nat) returns (i: nat)
    requires k < |ls| && ls[k].roleName == name
    decreases k
    ensures i <= k && ls[i].roleName == name
    ensures forall j :: 0 <= j < i ==> ls[j].roleName != name
  {
    if exists j :: 0 <= j < k && ls[j].roleName == name {
      var j :| 0 <= j < k && ls[j].roleName == name;
      i := FirstIndexOfName(ls, name, j);
    } else {
      i := k;
    }
  }

  // ---------------------------------------------------------------------------
  // Choosing where to repost

  /** The first layer at the depth of the channel the message was sent in; an untagged channel matches nothing. */
  function FirstAtDepth(ls: seq<Layer>, depth: Option<nat>): (r: Option<Layer>)
    ensures r.Some? <==> depth.Some? && exists l :: l in ls && l.depth == depth.value
    ensures r.Some? ==> r.value in ls && r.value.depth == depth.value
  {
    if depth.None? || ls == [] then None
    else if ls[0].depth == depth.value then Some(ls[0])
    else FirstAtDepth(ls[1..], depth)
  }

  /** The layers of the given feed, in layer order. */
  function SameFeed(ls: seq<Layer>, feed: Option<string>): (r: seq<Layer>)
    ensures forall x :: x in r <==> x in ls && x.feedName == feed
  {
    if ls == [] then []
    else (if ls[0].feedName == feed then [ls[0]] else []) + SameFeed(ls[1..], feed)
  }

  /** The position of the first layer at depth `d`, for a depth that occurs. */
  function IndexAtDepth(ls: seq<Layer>, d: nat): (i: nat)
    requires exists l :: l in ls && l.depth == d
    ensures i < |ls| && ls[i].depth == d
    ensures forall j :: 0 <= j < i ==> ls[j].depth != d
  {
    if ls[0].depth == d then 0
    else
      assert exists l :: l in ls[1..] && l.depth == d by {
        var l :| l in ls && l.depth == d;
        var k :| 0 <= k < |ls| && ls[k] == l;
        assert ls[1..][k - 1] == l;
      }
      1 + IndexAtDepth(ls[1..], d)
  }

  /**
   * Given the deduplicated layers of the channel's category and the channel's parsed
   * depth: the layer at that depth (a TypeError when there is none), that layer's feed in
   * depth order, and the layer just before it there.
   */
  function Target(layers: seq<Layer>, depth: Option<nat>): Outcome<Decision> {
    match FirstAtDepth(layers, depth)
    case None => Throws
    case Some(sent) =>
      var feedLayers := SortByDepth(SameFeed(layers, sent.feedName));
      assert sent in multiset(feedLayers);
      var i := IndexAtDepth(feedLayers, sent.depth);
      if i == 0 then Returns(AtTop) else Returns(Repost(feedLayers[i - 1].channel))
  }

  /** `feedLayers` holds exactly the layers of `feed`, in depth order. */
  ghost predicate ListsFeed(feedLayers: seq<Layer>, layers: seq<Layer>, feed: Option<string>) {
    && SortedByDepth(feedLayers)
    && forall x :: x in feedLayers <==> x in layers && x.feedName == feed
  }

  /** The sorted feed list holds exactly the feed's layers. */
  lemma FeedListed(layers: seq<Layer>, feed: Option<string>)
    ensures ListsFeed(SortByDepth(SameFeed(layers, feed)), layers, feed)
  {
    var fl := SortByDepth(SameFeed(layers, feed));
    forall x ensures x in fl <==> x in SameFeed(layers, feed) {
      assert x in fl <==> x in multiset(fl);
      assert x in SameFeed(layers, feed) <==> x in multiset(SameFeed(layers, feed));
    }
  }

  /**
   * The target is the nearest shallower layer of the same feed: strictly shallower than
   * the channel, with no layer of that feed strictly between; and the channel is the top
   * exactly when its feed has no shallower layer.
   */
  lemma TargetIsPrevious(layers: seq<Layer>, depth: Option<nat>)
    ensures Target(layers, depth).Throws? <==> FirstAtDepth(layers, depth).None?
    ensures Target(layers, depth).Returns? ==>
      var sent := FirstAtDepth(layers, depth).value;
      && (Target(layers, depth).value == AtTop <==>
            forall x :: x in layers && x.feedName == sent.feedName ==> x.depth >= sent.depth)
      && (Target(layers, depth).value.Repost? ==>
            exists lt :: lt in layers && lt.feedName == sent.feedName
              && lt.channel == Target(layers, depth).value.target && lt.depth < sent.depth
              && forall x :: x in layers && x.feedName == sent.feedName ==> !(lt.depth < x.depth < sent.depth))
  {
    if FirstAtDepth(layers, depth).Some? {
      var sent := FirstAtDepth(layers, depth).value;
      var feedLayers := SortByDepth(SameFeed(layers, sent.feedName));
      assert sent in multiset(feedLayers);
      var i := IndexAtDepth(feedLayers, sent.depth);
      FeedListed(layers, sent.feedName);
      TargetChoice(layers, sent, feedLayers, i, Target(layers, depth));
    }
  }

  /** `TargetIsPrevious` once the sent layer, its feed list and its index are fixed. */
  lemma TargetChoice(layers: seq<Layer>, sent: Layer, feedLayers: seq<Layer>, i: nat, t: Outcome<Decision>)
    requires ListsFeed(feedLayers, layers, sent.feedName)
    requires i < |feedLayers| && feedLayers[i].depth == sent.depth
    requires forall j :: 0 <= j < i ==> feedLayers[j].depth != sent.depth
    requires t == if i == 0 then Returns(AtTop) else Returns(Repost(feedLayers[i - 1].channel))
    ensures t.Returns?
    ensures t.value == AtTop <==> forall x :: x in layers && x.feedName == sent.feedName ==> x.depth >= sent.depth
    ensures t.value.Repost? ==>
      exists lt :: lt in layers && lt.feedName == sent.feedName
        && lt.channel == t.value.target && lt.depth < sent.depth
        && forall x :: x in layers && x.feedName == sent.feedName ==> !(lt.depth < x.depth < sent.depth)
  {
    if i == 0 {
      TargetTop(layers, sent, feedLayers);
    } else {
      TargetBefore(layers, sent, feedLayers, i);
    }
  }

  lemma TargetTop(layers: seq<Layer>, sent: Layer, feedLayers: seq<Layer>)
    requires ListsFeed(feedLayers, layers, sent.feedName)
    requires |feedLayers| > 0 && feedLayers[0].depth == sent.depth
    ensures forall x :: x in layers && x.feedName == sent.feedName ==> x.depth >= sent.depth
  {
    forall x | x in layers && x.feedName == sent.feedName ensures x.depth >= sent.depth {
      var j :| 0 <= j < |feedLayers| && feedLayers[j] == x;
      assert feedLayers[0].depth <= feedLayers[j].depth;
    }
  }

  lemma TargetBefore(layers: seq<Layer>, sent: Layer, feedLayers: seq<Layer>, i: nat)
    requires ListsFeed(feedLayers, layers, sent.feedName)
    requires 0 < i < |feedLayers| && feedLayers[i].depth == sent.depth
    requires forall j :: 0 <= j < i ==> feedLayers[j].depth != sent.depth
    ensures var lt := feedLayers[i - 1];
      && lt in layers && lt.feedName == sent.feedName && lt.depth < sent.depth
      && (forall x :: x in layers && x.feedName == sent.feedName ==> !(lt.depth < x.depth < sent.depth))
      && !(forall x :: x in layers && x.feedName == sent.feedName ==> x.depth >= sent.depth)
  {
    var lt := feedLayers[i - 1];
    assert lt.depth <= feedLayers[i].depth;
    assert lt.depth != sent.depth;
    assert lt in feedLayers;
    assert lt in layers && lt.feedName == sent.feedName && lt.depth < sent.depth;
    forall x | x in layers && x.feedName == sent.feedName ensures !(lt.depth < x.depth < sent.depth) {
      var j :| 0 <= j < |feedLayers| && feedLayers[j] == x;
      if j < i {
        assert feedLayers[j].depth <= feedLayers[i - 1].depth;
      } else {
        assert feedLayers[i].depth <= feedLayers[j].depth;
      }
    }
  }

  // ---------------------------------------------------------------------------
  // The decision

  /**
   * `onReact`, given the emoji name it compares with: react only to that emoji, in a
   * channel with a parent; read the parent's layers from the layer map (a TypeError when
   * the map throws or lacks the parent); fire only when the count, `null` read as 0,
   * equals the threshold exactly; then pick the target.
   */
  function Decide(sparkle: string, cs: seq<Channel>, r: Reaction): (d: Outcome<Decision>)
    ensures d == Returns(Ignore) <==>
      || r.emoji != sparkle || r.channel.parent.None?
      || (&& LayerMapOf(cs).Returns? && r.channel.parent.value in LayerMapOf(cs).value
          && r.count.GetOr(0) != Threshold(r.humans))
  {
    if r.emoji != sparkle || r.channel.parent.None? then Returns(Ignore)
    else
      match LayerMapOf(cs)
      case Throws => Throws
      case Returns(m) =>
        var p := r.channel.parent.value;
        if p !in m then Throws
        else if r.count.GetOr(0) != Threshold(r.humans) then Returns(Ignore)
        else
          var t := Target(Dedupe(m[p]), ChannelDepth(r.channel.name));
          TargetIsPrevious(Dedupe(m[p]), ChannelDepth(r.channel.name));
          t
  }

  /**
   * As written the handler compares with the misencoded name, so a real ✨ reaction is
   * always ignored, whatever the count and the layers.
   */
  lemma AsWrittenIgnoresSparkle(cs: seq<Channel>, r: Reaction)
    requires r.emoji == Sparkle
    ensures Decide(SparkleAsWritten, cs, r) == Returns(Ignore)
  {
    assert |Sparkle| == 1 && |SparkleAsWritten| == 3;
  }

  /** A one-layer list is already sorted. */
  lemma SortSingle(l: Layer)
    ensures SortByDepth([l]) == [l]
  {
    var r := SortByDepth([l]);
    assert |multiset(r)| == 1;
    assert r[0] in multiset([l]);
  }

  /** Two layers in increasing depth are already sorted. */
  lemma SortPair(a: Layer, b: Layer)
    requires a.depth < b.depth
    ensures SortByDepth([a, b]) == [a, b]
  {
    var r := SortByDepth([a, b]);
    assert |multiset(r)| == 2;
    assert r == [r[0], r[1]];
    assert multiset{r[0], r[1]} == multiset{a, b};
    assert r[0].depth <= r[1].depth;
  }

  lemma ChannelDepthOne()
    ensures ChannelDepth("p1") == Some(1)
  {
    ChannelDepthOfTagged("", "1", "");
    assert "" + "p" + "1" + "" == "p1";
    assert DigitsValue("1") == 1 by { assert "1"[..0] == ""; }
  }

  lemma ChannelDepthTwo()
    ensures ChannelDepth("p2") == Some(2)
  {
    ChannelDepthOfTagged("", "2", "");
    assert "" + "p" + "2" + "" == "p2";
    assert DigitsValue("2") == 2 by { assert "2"[..0] == ""; }
  }

  /** The only layer of a feed is the top of it. */
  lemma TargetOfSingle(l: Layer)
    ensures Target(Dedupe([l]), Some(l.depth)) == Returns(AtTop)
  {
    assert [l][1..] == [];
    assert DedupeFrom([l], {}) == [l] + DedupeFrom([], {l.roleName});
    assert Dedupe([l]) == [l];
    assert SameFeed([l], l.feedName) == [l];
    SortSingle(l);
  }

  /** Of two layers of one feed, the deeper one escalates into the shallower one. */
  lemma TargetOfPair(a: Layer, b: Layer)
    requires a.depth < b.depth && a.feedName == b.feedName && a.roleName != b.roleName
    ensures Target(Dedupe([a, b]), Some(b.depth)) == Returns(Repost(a.channel))
  {
    assert [a, b][1..] == [b];
    assert [b][1..] == [];
    assert DedupeFrom([b], {a.roleName}) == [b] + DedupeFrom([], {a.roleName, b.roleName});
    assert DedupeFrom([a, b], {}) == [a] + DedupeFrom([b], {} + {a.roleName});
    assert {} + {a.roleName} == {a.roleName};
    assert Dedupe([a, b]) == [a, b];
    assert SameFeed([b], b.feedName) == [b];
    assert SameFeed([a, b], b.feedName) == [a, b];
    SortPair(a, b);
    assert FirstAtDepth([a, b], Some(b.depth)) == Some(b);
  }

  /** The guild of the two scenarios below: feed "Infra" with two depth-tagged channels. */
  function Infra(a: string, b: string): seq<Channel> {
    [Channel(1, [Marker] + " Infra", Category, None), Channel(2, a, Text, Some(1)), Channel(3, b, Text, Some(1))]
  }

  /**
   * A feed with channels `p0` and `p1`: the third ✨ on a message in `p1`, with eight
   * people watching, reaches the threshold, but `p0` is no layer (its depth 0 is falsy),
   * so `p1` is the top of its feed and nothing is reposted.
   */
  lemma DepthZeroIsNoTarget()
    ensures Decide(Sparkle, Infra("p0", "p1"), Reaction(Sparkle, Some(3), 9, Infra("p0", "p1")[2], 8)) == Returns(AtTop)
  {
    var cs := Infra("p0", "p1");
    ChannelDepthExampleZero();
    ChannelDepthOne();
    ThresholdOfEight();
    var l := LayerOf(cs[2], cs);
    var m0: LayerMap := map[1 := []];
    assert LayerMapUpTo(cs, 1) == Returns(m0);
    assert !IsLayerChannel(cs[1]);
    assert LayerMapUpTo(cs, 2) == Returns(m0);
    PushIntoOne(cs, 2, m0, l);
    SortSingle(l);
    assert m0[1] + [l] == [l];
    OneKeyUpdate([], [l]);
    assert LayerMapOf(cs) == Returns(map[1 := [l]]);
    TargetOfSingle(l);
  }

  /** One push of the reduce into a present key. */
  lemma PushStep(m: LayerMap, c: Channel, cs: seq<Channel>, p: Id)
    requires IsLayerChannel(c) && c.parent == Some(p) && p in m
    ensures LayerStep(Returns(m), c, cs) == Returns(m[p := SortByDepth(m[p] + [LayerOf(c, cs)])])
  {
  }

  /** A push into category 1 of a layer map already built from the first `n` channels. */
  lemma PushIntoOne(cs: seq<Channel>, n: nat, m: LayerMap, l: Layer)
    requires n < |cs| && LayerMapUpTo(cs, n) == Returns(m) && 1 in m
    requires IsLayerChannel(cs[n]) && cs[n].parent == Some(1) && l == LayerOf(cs[n], cs)
    ensures LayerMapUpTo(cs, n + 1) == Returns(m[1 := SortByDepth(m[1] + [l])])
  {
    PushStep(m, cs[n], cs, 1);
  }

  /** Updating the only key of a one-key map gives the one-key map of the new value. */
  lemma OneKeyUpdate(v: seq<Layer>, w: seq<Layer>)
    ensures map[1 := v][1 := w] == map[1 := w]
  {
  }

  /** The first push of the reduce over feed "Infra": the category's list holds the first layer. */
  lemma InfraFirst(a: string, b: string, l1: Layer)
    requires IsLayerChannel(Infra(a, b)[1]) && l1 == LayerOf(Infra(a, b)[1], Infra(a, b))
    ensures LayerMapUpTo(Infra(a, b), 2) == Returns(map[1 := [l1]])
  {
    var cs := Infra(a, b);
    var m0: LayerMap := map[1 := []];
    assert LayerMapUpTo(cs, 1) == Returns(m0);
    PushIntoOne(cs, 1, m0, l1);
    SortSingle(l1);
    assert m0[1] + [l1] == [l1];
    OneKeyUpdate([], [l1]);
  }

  /** The second push: a deeper second layer lands after the first. */
  lemma InfraSecond(a: string, b: string, l1: Layer, l2: Layer)
    requires IsLayerChannel(Infra(a, b)[1]) && l1 == LayerOf(Infra(a, b)[1], Infra(a, b))
    requires IsLayerChannel(Infra(a, b)[2]) && l2 == LayerOf(Infra(a, b)[2], Infra(a, b))
    requires l1.depth < l2.depth
    ensures LayerMapUpTo(Infra(a, b), 3) == Returns(map[1 := [l1, l2]])
  {
    InfraFirst(a, b, l1);
    PushIntoOne(Infra(a, b), 2, map[1 := [l1]], l2);
    SortPair(l1, l2);
    assert [l1] + [l2] == [l1, l2];
    OneKeyUpdate([l1], [l1, l2]);
  }

  /** The layer map of feed "Infra" with channels `p1` and `p2`. */
  lemma InfraOneTwo() returns (l1: Layer, l2: Layer)
    ensures l1.depth == 1 && l1.channel == 2 && l2.depth == 2 && l2.channel == 3
    ensures l1.feedName == l2.feedName && l1.roleName != l2.roleName
    ensures LayerMapOf(Infra("p1", "p2")) == Returns(map[1 := [l1, l2]])
  {
    var cs := Infra("p1", "p2");
    ChannelDepthOne();
    ChannelDepthTwo();
    l1 := LayerOf(cs[1], cs);
    l2 := LayerOf(cs[2], cs);
    InfraSecond("p1", "p2", l1, l2);
    RoleNameInjectiveBoth(l1.feedName, 1, 2);
  }

  /**
   * A feed with channels `p1` and `p2`: the third ✨ on a message in `p2`, with eight
   * people watching, is reposted into `p1` by the intended handler and ignored by the
   * handler as written.
   */
  lemma SparkleEscalatesOnlyAsIntended()
    ensures var r := Reaction(Sparkle, Some(3), 9, Infra("p1", "p2")[2], 8);
      && Decide(Sparkle, Infra("p1", "p2"), r) == Returns(Repost(2))
      && Decide(SparkleAsWritten, Infra("p1", "p2"), r) == Returns(Ignore)
  {
    var cs := Infra("p1", "p2");
    var r := Reaction(Sparkle, Some(3), 9, cs[2], 8);
    ChannelDepthTwo();
    ThresholdOfEight();
    var l1, l2 := InfraOneTwo();
    TargetOfPair(l1, l2);
    AsWrittenIgnoresSparkle(cs, r);
  }

  lemma RoleNameInjectiveBoth(feed: Option<string>, a: nat, b: nat)
    requires a != b
    ensures RoleName(feed, a) != RoleName(feed, b)
  {
    if RoleName(feed, a) == RoleName(feed, b) {
      RoleNameInjective(feed, a, b);
    }
  }

  /**
   * `onReact` as intended: with a guild, decide on the real ✨ and, on a repost, send
   * exactly one message, to the target channel; nothing else in the guild changes.
   */
  method OnReact(g: Guild?, r: Reaction) returns (d: Outcome<Decision>)
    requires g != null ==> g.Valid()
    modifies g
    ensures g != null ==> g.Valid()
    ensures g == null ==> d == Returns(Ignore)
    ensures g != null ==> g.channels == old(g.channels) && g.State() == old(g.State())
    ensures g != null ==> d == Decide(Sparkle, g.channels, r)
    ensures g != null ==> g.outbox == old(g.outbox) + (if d.Returns? && d.value.Repost? then [Post(d.value.target, r.message)] else [])
  {
    if g == null {
      return Returns(Ignore);
    }
    if r.emoji != Sparkle || r.channel.parent.None? {
      return Returns(Ignore);
    }
    var lm := GetLayerMap(g.channels);
    if lm.Throws? || r.channel.parent.value !in lm.value {
      return Throws;
    }
    var layers := Dedupe(lm.value[r.channel.parent.value]);
    var isHighSignal := r.count.GetOr(0) == Threshold(r.humans);
    if !isHighSignal {
      return Returns(Ignore);
    }
    d := Target(layers, ChannelDepth(r.channel.name));
    if d.Returns? && d.value.Repost? {
      g.Send(Post(d.value.target, r.message));
    }
  }
}
