/**
 * The `/pace` commands of Pace.cmd.ts: `list` shows, for each layer the member holds, the
 * layers of its feed down to it; `set` offers the member's feeds; picking a feed offers
 * its layers; picking a layer swaps the member's role for that feed.
 */
module Pace {
  import opened Base
  import opened Names
  import opened Topology
  import opened Reconcile
  import opened Server

  // ---------------------------------------------------------------------------
  // list

  /** One field of the `/pace list` embed: a held layer and its feed's layers down to it. */
  datatype Field = Field(feed: Option<string>, depth: nat, channels: seq<Layer>)

  /** The layers of `l`'s feed no deeper than `l`, in layer order. */
  function UpTo(layers: seq<Layer>, l: Layer): (r: seq<Layer>)
    ensures forall x :: x in r <==> x in layers && x.feedName == l.feedName && x.depth <= l.depth
  {
    if layers == [] then []
    else
      (if layers[0].feedName == l.feedName && layers[0].depth <= l.depth then [layers[0]] else [])
      + UpTo(layers[1..], l)
  }

  /** The layers whose role name the member holds, in layer order. */
  function Held(layers: seq<Layer>, names: seq<string>): (r: seq<Layer>)
    ensures forall x :: x in r <==> x in layers && x.roleName in names
  {
    if layers == [] then []
    else (if layers[0].roleName in names then [layers[0]] else []) + Held(layers[1..], names)
  }

  /** The field of one held layer: its feed's layers up to its depth, shallowest first. */
  function FieldOf(layers: seq<Layer>, l: Layer): (f: Field)
    ensures f.feed == l.feedName && f.depth == l.depth && SortedByDepth(f.channels)
    ensures forall x :: x in f.channels <==> x in layers && x.feedName == l.feedName && x.depth <= l.depth
  {
    var up := UpTo(layers, l);
    var sorted := SortByDepth(up);
    assert forall x :: x in sorted <==> x in multiset(up);
    Field(l.feedName, l.depth, sorted)
  }

  /** The fields of `/pace list`, one per held layer in layer order. */
  function Layout(layers: seq<Layer>, names: seq<string>): seq<Field> {
    var held := Held(layers, names);
    seq(|held|, i requires 0 <= i < |held| => FieldOf(layers, held[i]))
  }

  /** `f` is the field of layer `l`: its feed and depth, and its feed's layers up to it, sorted. */
  ghost predicate FieldFor(layers: seq<Layer>, l: Layer, f: Field) {
    && f.feed == l.feedName && f.depth == l.depth
    && l in f.channels && SortedByDepth(f.channels)
    && forall x :: x in f.channels <==> x in layers && x.feedName == l.feedName && x.depth <= l.depth
  }

  /** Every field stands for a layer the member holds, listing its feed's layers up to it in depth order. */
  lemma LayoutSound(layers: seq<Layer>, names: seq<string>, i: nat)
    requires i < |Layout(layers, names)|
    ensures exists l :: l in layers && l.roleName in names && FieldFor(layers, l, Layout(layers, names)[i])
  {
    var held := Held(layers, names);
    var f := FieldOf(layers, held[i]);
    assert held[i] in held;
    assert Layout(layers, names)[i] == f;
    assert held[i] in f.channels;
    assert FieldFor(layers, held[i], f);
  }

  /** Every layer the member holds has its field. */
  lemma LayoutComplete(layers: seq<Layer>, names: seq<string>, l: Layer)
    requires l in layers && l.roleName in names
    ensures exists i :: 0 <= i < |Layout(layers, names)| && FieldFor(layers, l, Layout(layers, names)[i])
  {
    var held := Held(layers, names);
    var i :| 0 <= i < |held| && held[i] == l;
    var f := FieldOf(layers, l);
    assert Layout(layers, names)[i] == f;
    assert l in f.channels;
    assert FieldFor(layers, l, f);
  }

  /** There is no field at all ("Didn't find any associated feeds") exactly when the member holds no layer. */
  lemma LayoutEmpty(layers: seq<Layer>, names: seq<string>)
    ensures |Layout(layers, names)| == 0 <==> forall l :: l in layers ==> l.roleName !in names
  {
    var held := Held(layers, names);
    if |held| != 0 {
      assert held[0] in held;
    }
  }

  /**
   * `list`: in a guild, run the reconciler, then lay out the layers whose role the member
   * holds afterwards.
   */
  method List(g: Guild?, who: nat, colorOf: string -> Color) returns (r: Outcome<Option<seq<Field>>>)
    requires g != null ==> who < |g.members|
    requires g != null ==> g.Valid()
    modifies g
    ensures g != null ==> g.Valid()
    ensures g == null ==> r == Returns(None)
    ensures g != null ==>
      var p := Fix(old(g.channels), old(g.State()), false, colorOf);
      && g.channels == old(g.channels) && g.outbox == old(g.outbox) && g.State() == p.state
      && |g.members| == |old(g.members)|
      && (r.Throws? <==> p.result.Throws?)
      && (r.Returns? ==> GuildLayers(g.channels).Returns?)
      && (r.Returns? ==> r.value == Some(Layout(GuildLayers(g.channels).value, HeldNames(g.roles, g.members[who]))))
  {
    if g == null {
      return Returns(None);
    }
    FixKeepsMembers(g.channels, g.State(), false, colorOf);
    var fixed := g.FixRolesAndPermissions(false, colorOf);
    if fixed.Throws? {
      return Throws;
    }
    var names := HeldNames(g.roles, g.members[who]);
    var layers := GuildLayers(g.channels).value;
    return Returns(Some(Layout(layers, names)));
  }

  // ---------------------------------------------------------------------------
  // set: the feed menu

  /**
   * `createFeedSelectionMenu`: the member's roles that start with some feed name (a feed
   * name that does not parse counts as ""), each offered as its name without ` P<digits>`.
   */
  function FeedMenu(cs: seq<Channel>, userRoles: seq<Role>): (r: seq<MenuOption>)
    ensures forall o :: o in r <==>
      exists x :: x in userRoles && UnderSomeFeed(x.name, FeedPrefixes(cs, "")) &&
        o == MenuOption(StripPaceSuffix(x.name), StripPaceSuffix(x.name))
  {
    var rs := FeedRoles(FeedPrefixes(cs, ""), userRoles);
    var r := seq(|rs|, i requires 0 <= i < |rs| => MenuOption(StripPaceSuffix(rs[i].name), StripPaceSuffix(rs[i].name)));
    assert forall x :: x in rs ==> MenuOption(StripPaceSuffix(x.name), StripPaceSuffix(x.name)) in r by {
      forall x | x in rs ensures MenuOption(StripPaceSuffix(x.name), StripPaceSuffix(x.name)) in r {
        var i :| 0 <= i < |rs| && rs[i] == x;
        assert r[i] == MenuOption(StripPaceSuffix(x.name), StripPaceSuffix(x.name));
      }
    }
    r
  }

  /** A member holding a layer role of a parsed feed is offered that feed by name. */
  lemma FeedMenuOffersHeldFeed(cs: seq<Channel>, userRoles: seq<Role>, c: Channel, x: Role, d: nat)
    requires c in cs && c.kind == Category && FeedName(c.name).Some?
    requires x in userRoles && x.name == RoleName(FeedName(c.name), d)
    ensures var f := FeedName(c.name).value; MenuOption(f, f) in FeedMenu(cs, userRoles)
  {
    var f := FeedName(c.name).value;
    FeedNameNeedsMarker(c.name);
    assert f in FeedPrefixes(cs, "");
    RoleNameRoundTrip(FeedName(c.name), d);
    assert x.name[..|f|] == f;
  }

  /**
   * One feed category whose name does not parse adds the prefix "", so every role the
   * member holds is offered, pace role or not.
   */
  lemma UnparsedFeedOffersEverything(cs: seq<Channel>, userRoles: seq<Role>, c: Channel, x: Role)
    requires c in cs && c.kind == Category && IsWorkflow(c.name) && FeedName(c.name).None?
    requires x in userRoles
    ensures MenuOption(StripPaceSuffix(x.name), StripPaceSuffix(x.name)) in FeedMenu(cs, userRoles)
  {
    assert "" in FeedPrefixes(cs, "");
    EmptyPrefixKeepsAll(FeedPrefixes(cs, ""), userRoles);
  }

  /**
   * The member's role cache always ends with @everyone, so with such a category the menu
   * `set` sends offers "@everyone" to every member.
   */
  lemma UnparsedFeedOffersEveryone(cs: seq<Channel>, guild: Id, rs: seq<Role>, m: Member, c: Channel)
    requires c in cs && c.kind == Category && IsWorkflow(c.name) && FeedName(c.name).None?
    ensures MenuOption(EveryoneName, EveryoneName) in FeedMenu(cs, MemberCache(guild, rs, m))
  {
    var cache := MemberCache(guild, rs, m);
    assert cache[|cache| - 1] in cache;
    assert TrailingDigits(EveryoneName) == 0;
    UnparsedFeedOffersEverything(cs, cache, c, EveryoneRole(guild));
  }

  /** `set`: in a guild, run the reconciler, then offer the member's feeds. */
  method Set(g: Guild?, who: nat, colorOf: string -> Color) returns (r: Outcome<Option<seq<MenuOption>>>)
    requires g != null ==> who < |g.members|
    requires g != null ==> g.Valid()
    modifies g
    ensures g != null ==> g.Valid()
    ensures g == null ==> r == Returns(None)
    ensures g != null ==>
      var p := Fix(old(g.channels), old(g.State()), false, colorOf);
      && g.channels == old(g.channels) && g.outbox == old(g.outbox) && g.State() == p.state
      && |g.members| == |old(g.members)|
      && (r.Throws? <==> p.result.Throws?)
      && (r.Returns? ==> r.value == Some(FeedMenu(g.channels, MemberCache(g.id, g.roles, g.members[who]))))
  {
    if g == null {
      return Returns(None);
    }
    FixKeepsMembers(g.channels, g.State(), false, colorOf);
    var fixed := g.FixRolesAndPermissions(false, colorOf);
    if fixed.Throws? {
      return Throws;
    }
    return Returns(Some(FeedMenu(g.channels, MemberCache(g.id, g.roles, g.members[who]))));
  }

  // ---------------------------------------------------------------------------
  // The layer menu of a feed

  /** The caption of a layer option: "Pace Layer " and the depth. */
  function LayerCaption(d: nat): string {
    "Pace Layer " + NatToString(d)
  }

  /** `createPaceSelectionMenu`: one option per layer of the feed, valued by its role name. */
  function PaceMenu(layers: seq<Layer>, feed: string): (r: seq<MenuOption>)
    ensures forall o :: o in r <==>
      exists l :: l in layers && l.feedName == Some(feed) && o == MenuOption(LayerCaption(l.depth), l.roleName)
  {
    if layers == [] then []
    else
      (if layers[0].feedName == Some(feed) then [MenuOption(LayerCaption(layers[0].depth), layers[0].roleName)] else [])
      + PaceMenu(layers[1..], feed)
  }

  /**
   * `handlePaceRoleSelection`: in a guild, run the reconciler, then offer the layers of the
   * feed the member picked.
   */
  method HandlePaceRoleSelection(g: Guild?, feed: string, colorOf: string -> Color) returns (r: Outcome<Option<seq<MenuOption>>>)
    requires g != null ==> g.Valid()
    modifies g
    ensures g != null ==> g.Valid()
    ensures g == null ==> r == Returns(None)
    ensures g != null ==>
      var p := Fix(old(g.channels), old(g.State()), false, colorOf);
      && g.channels == old(g.channels) && g.outbox == old(g.outbox) && g.State() == p.state
      && (r.Throws? <==> p.result.Throws?)
      && (r.Returns? ==> GuildLayers(g.channels).Returns?)
      && (r.Returns? ==> r.value == Some(PaceMenu(GuildLayers(g.channels).value, feed)))
  {
    if g == null {
      return Returns(None);
    }
    FixKeepsMembers(g.channels, g.State(), false, colorOf);
    var fixed := g.FixRolesAndPermissions(false, colorOf);
    if fixed.Throws? {
      return Throws;
    }
    return Returns(Some(PaceMenu(GuildLayers(g.channels).value, feed)));
  }

  // ---------------------------------------------------------------------------
  // handlePaceSelection: the role swap

  /** Role `k` is the first role of the member's cache whose name starts with the feed name. */
  predicate FirstStartingWith(userRoles: seq<Role>, feed: string, k: int) {
    0 <= k < |userRoles| && StartsWith(userRoles[k].name, feed) &&
    forall j :: 0 <= j < k ==> !StartsWith(userRoles[j].name, feed)
  }

  /**
   * The old pace role's name: the name of the first role in the member's cache that starts
   * with the feed name, or "" when no role does.
   */
  function OldPaceName(userRoles: seq<Role>, feed: string): (r: string)
    ensures (exists x :: x in userRoles && StartsWith(x.name, feed)) ==>
      exists k :: FirstStartingWith(userRoles, feed, k) && r == userRoles[k].name
    ensures (forall x :: x in userRoles ==> !StartsWith(x.name, feed)) ==> r == ""
  {
    if userRoles == [] then ""
    else if StartsWith(userRoles[0].name, feed) then
      assert FirstStartingWith(userRoles, feed, 0);
      userRoles[0].name
    else
      var r := OldPaceName(userRoles[1..], feed);
      assert (exists x :: x in userRoles && StartsWith(x.name, feed)) ==>
        exists k :: FirstStartingWith(userRoles, feed, k) && r == userRoles[k].name
      by {
        if exists x :: x in userRoles && StartsWith(x.name, feed) {
          var x :| x in userRoles && StartsWith(x.name, feed);
          assert x in userRoles[1..];
          var k :| FirstStartingWith(userRoles[1..], feed, k) && r == userRoles[1..][k].name;
          forall j | 0 <= j < k + 1 ensures !StartsWith(userRoles[j].name, feed) {
            if j > 0 {
              assert userRoles[j] == userRoles[1..][j - 1];
            }
          }
          assert FirstStartingWith(userRoles, feed, k + 1);
        }
      }
      r
  }

  /** What a layer pick decides: nothing, or the role to add and the role to remove. */
  datatype Swap = SameLayer | Change(feed: string, add: Option<Role>, remove: Option<Role>, upped: bool)

  /**
   * The decision of `handlePaceSelection` for the picked role name: the feed is the name
   * without ` P<digits>`, the old role is the member's first role starting with it, and a
   * missing depth counts as 0.
   */
  function PaceSwap(roles: seq<Role>, userRoles: seq<Role>, selected: string): Swap {
    var feed := StripPaceSuffix(selected);
    var oldName := OldPaceName(userRoles, feed);
    var oldDepth := RoleDepth(oldName).GetOr(0);
    var newDepth := RoleDepth(selected).GetOr(0);
    if oldDepth == newDepth then SameLayer
    else Change(feed, FindRole(roles, selected), FindRole(roles, oldName), newDepth > oldDepth)
  }

  /** A swap decided by depths: none for equal ones, else adding `add` and moving up iff `d > d0`. */
  predicate PickDecides(sw: Swap, feed: string, add: Option<Role>, d: nat, d0: nat) {
    && (sw.SameLayer? <==> d == d0)
    && (sw.Change? ==> sw.feed == feed && sw.add == add && (sw.upped <==> d > d0))
  }

  /**
   * Picking an option of a feed's layer menu while holding a layer role of that feed at
   * depth `d0` (the member's first role starting with the feed name): the feed comes back
   * out of the option, nothing changes exactly when the depth is the same, and the reply
   * says "Upped" exactly when the new layer is deeper.
   */
  lemma PickFromPaceMenu(cs: seq<Channel>, roles: seq<Role>, userRoles: seq<Role>, feed: string, o: MenuOption, d0: nat)
    requires GuildLayers(cs).Returns? && o in PaceMenu(GuildLayers(cs).value, feed)
    requires OldPaceName(userRoles, feed) == RoleName(Some(feed), d0)
    ensures exists l :: (l in GuildLayers(cs).value && l.feedName == Some(feed) && o.value == l.roleName &&
      PickDecides(PaceSwap(roles, userRoles, o.value), feed, FindRole(roles, l.roleName), l.depth, d0))
  {
    var l :| l in GuildLayers(cs).value && l.feedName == Some(feed) && o == MenuOption(LayerCaption(l.depth), l.roleName);
    GuildLayerShape(cs, l);
    RoleNameRoundTrip(Some(feed), d0);
  }

  /**
   * A member with no role of the feed has old depth 0 and old name "", so for a layer of
   * depth 1 or more the pick adds the new role and then finds no role to remove (unless a
   * role is literally named "").
   */
  lemma PickOutsideFeed(roles: seq<Role>, userRoles: seq<Role>, selected: string)
    requires forall x :: x in userRoles ==> !StartsWith(x.name, StripPaceSuffix(selected))
    requires RoleDepth(selected).Some? && RoleDepth(selected).value != 0
    requires !HasRoleNamed(roles, "")
    ensures PaceSwap(roles, userRoles, selected) == Change(StripPaceSuffix(selected), FindRole(roles, selected), None, true)
  {
    assert RoleDepth("") == None;
  }

  /** What `handlePaceSelection` replies. */
  datatype PaceReply = NotInGuild | Unchanged | Moved(upped: bool, feed: string, from: Role, to: Role)

  /**
   * `handlePaceSelection`: with the same depth nothing changes; otherwise add the new role
   * (throwing, with nothing changed, when no role has the picked name), then remove the old
   * one (throwing, with the new role kept, when there is none).
   */
  method HandlePaceSelection(g: Guild?, who: nat, selected: string) returns (r: Outcome<PaceReply>)
    requires g != null ==> who < |g.members|
    requires g != null ==> g.Valid()
    modifies g
    ensures g != null ==> g.Valid()
    ensures g == null ==> r == Returns(NotInGuild)
    ensures g != null ==>
      var s := old(g.State());
      var sw := PaceSwap(s.roles, MemberCache(g.id, s.roles, s.members[who]), selected);
      && g.channels == old(g.channels) && g.outbox == old(g.outbox)
      && (sw.SameLayer? ==> r == Returns(Unchanged) && g.State() == s)
      && (sw.Change? && sw.add.None? ==> r.Throws? && g.State() == s)
      && (sw.Change? && sw.add.Some? && sw.remove.None? ==>
            r.Throws? && g.State() == AddRolesTo(s, who, {sw.add.value.id}))
      && (sw.Change? && sw.add.Some? && sw.remove.Some? ==>
            && r == Returns(Moved(sw.upped, sw.feed, sw.remove.value, sw.add.value))
            && g.State() == RemoveRolesFrom(AddRolesTo(s, who, {sw.add.value.id}), who, {sw.remove.value.id}))
  {
    if g == null {
      return Returns(NotInGuild);
    }
    var sw := PaceSwap(g.roles, MemberCache(g.id, g.roles, g.members[who]), selected);
    r := ApplySwap(g, who, sw);
  }

  /** The role updates of one swap, in the order the handler awaits them. */
  method ApplySwap(g: Guild, who: nat, sw: Swap) returns (r: Outcome<PaceReply>)
    requires who < |g.members|
    requires g.Valid()
    modifies g
    ensures g.Valid()
    ensures var s := old(g.State());
      && g.channels == old(g.channels) && g.outbox == old(g.outbox)
      && (sw.SameLayer? ==> r == Returns(Unchanged) && g.State() == s)
      && (sw.Change? && sw.add.None? ==> r.Throws? && g.State() == s)
      && (sw.Change? && sw.add.Some? && sw.remove.None? ==>
            r.Throws? && g.State() == AddRolesTo(s, who, {sw.add.value.id}))
      && (sw.Change? && sw.add.Some? && sw.remove.Some? ==>
            && r == Returns(Moved(sw.upped, sw.feed, sw.remove.value, sw.add.value))
            && g.State() == RemoveRolesFrom(AddRolesTo(s, who, {sw.add.value.id}), who, {sw.remove.value.id}))
  {
    if sw.SameLayer? {
      return Returns(Unchanged);
    }
    if sw.add.None? {
      return Throws;
    }
    assert RoleIds([sw.add.value]) == {sw.add.value.id};
    g.AddMemberRoles(who, [sw.add.value]);
    if sw.remove.None? {
      return Throws;
    }
    assert RoleIds([sw.remove.value]) == {sw.remove.value.id};
    g.RemoveMemberRoles(who, [sw.remove.value]);
    return Returns(Moved(sw.upped, sw.feed, sw.remove.value, sw.add.value));
  }
}
