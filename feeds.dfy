/**
 * The `/feeds` commands of Feeds.cmd.ts: the join and leave menus, joining a feed (its
 * first layer's role), leaving (the picked roles) and listing the feeds that have layers.
 * Every handler runs the reconciler first, and a role the reconciler has just nuked cannot
 * be found afterwards.
 */
module Feeds {
  import opened Base
  import opened Names
  import opened Topology
  import opened Reconcile
  import opened Server

  // ---------------------------------------------------------------------------
  // createRoleSelectMenu

  datatype MenuKind = Join | Leave

  /** Join offers each feed name; leave offers each role under a feed, valued by its full name. */
  ghost predicate Offered(cs: seq<Channel>, userRoles: seq<Role>, kind: MenuKind, o: MenuOption) {
    if kind == Join then
      exists c :: c in cs && c.kind == Category && IsWorkflow(c.name) &&
        o == MenuOption(FeedName(c.name).GetOr("c"), FeedName(c.name).GetOr("c"))
    else
      exists x :: x in userRoles && UnderSomeFeed(x.name, FeedPrefixes(cs, "c")) &&
        o == MenuOption(StripPaceSuffix(x.name), x.name)
  }

  /** The join options: one per feed category, label and value its feed name or "c". */
  function JoinOptions(cs: seq<Channel>): (r: seq<MenuOption>)
    ensures forall o :: o in r <==> Offered(cs, [], Join, o)
  {
    var prefixes := FeedPrefixes(cs, "c");
    var r := seq(|prefixes|, i requires 0 <= i < |prefixes| => MenuOption(prefixes[i], prefixes[i]));
    forall o | Offered(cs, [], Join, o) ensures o in r {
      var c :| c in cs && c.kind == Category && IsWorkflow(c.name) &&
        o == MenuOption(FeedName(c.name).GetOr("c"), FeedName(c.name).GetOr("c"));
      assert FeedName(c.name).GetOr("c") in prefixes;
      var i :| 0 <= i < |prefixes| && prefixes[i] == FeedName(c.name).GetOr("c");
      assert r[i] == o;
    }
    r
  }

  /** The leave options: the member's roles under a feed, labelled without ` P<digits>`. */
  function LeaveOptions(cs: seq<Channel>, userRoles: seq<Role>): (r: seq<MenuOption>)
    ensures forall o :: o in r <==> Offered(cs, userRoles, Leave, o)
  {
    var prefixes := FeedPrefixes(cs, "c");
    var rs := FeedRoles(prefixes, userRoles);
    var r := LeaveMenu(rs);
    forall o | Offered(cs, userRoles, Leave, o) ensures o in r {
      var x :| x in userRoles && UnderSomeFeed(x.name, prefixes) && o == MenuOption(StripPaceSuffix(x.name), x.name);
      assert x in rs;
    }
    r
  }

  /** One leave option per role, labelled without its pace suffix, in role order. */
  function LeaveMenu(rs: seq<Role>): (r: seq<MenuOption>)
    ensures forall o :: o in r <==> exists x :: x in rs && o == MenuOption(StripPaceSuffix(x.name), x.name)
  {
    var r := seq(|rs|, i requires 0 <= i < |rs| => MenuOption(StripPaceSuffix(rs[i].name), rs[i].name));
    forall x | x in rs ensures MenuOption(StripPaceSuffix(x.name), x.name) in r {
      var i :| 0 <= i < |rs| && rs[i] == x;
      assert r[i] == MenuOption(StripPaceSuffix(x.name), x.name);
    }
    r
  }

  /**
   * `createRoleSelectMenu` for the given kind: the feed names (falling back to "c") for join, the
   * member's roles starting with one of them for leave; an empty list throws
   * 'No roles to leave!' whichever the kind.
   */
  function RoleSelectMenu(cs: seq<Channel>, userRoles: seq<Role>, kind: MenuKind): (r: Outcome<seq<MenuOption>>)
    ensures r.Returns? ==> |r.value| > 0
    ensures r.Returns? ==> forall o :: o in r.value <==> Offered(cs, userRoles, kind, o)
    ensures r.Throws? <==> forall o :: !Offered(cs, userRoles, kind, o)
  {
    var options := if kind == Join then JoinOptions(cs) else LeaveOptions(cs, userRoles);
    assert |options| > 0 ==> options[0] in options;
    if |options| == 0 then Throws else Returns(options)
  }

  // ---------------------------------------------------------------------------
  // handleJoin

  /** Layer `k` is the first layer of the feed. */
  predicate FirstOfFeed(layers: seq<Layer>, feed: string, k: int) {
    0 <= k < |layers| && layers[k].feedName == Some(feed) && forall j :: 0 <= j < k ==> layers[j].feedName != Some(feed)
  }

  /** The role name of the feed's first layer, if the feed has a layer. */
  function FeedRoleName(layers: seq<Layer>, feed: string): (r: Option<string>)
    ensures r.Some? <==> exists l :: l in layers && l.feedName == Some(feed)
    ensures r.Some? ==> exists k :: FirstOfFeed(layers, feed, k) && r.value == layers[k].roleName
  {
    if layers == [] then None
    else if layers[0].feedName == Some(feed) then
      assert FirstOfFeed(layers, feed, 0);
      Some(layers[0].roleName)
    else
      var r := FeedRoleName(layers[1..], feed);
      assert r.Some? ==> exists k :: FirstOfFeed(layers, feed, k) && r.value == layers[k].roleName by {
        if r.Some? {
          var k :| FirstOfFeed(layers[1..], feed, k) && r.value == layers[1..][k].roleName;
          forall j | 0 <= j < k + 1 ensures layers[j].feedName != Some(feed) {
            if j > 0 {
              assert layers[j] == layers[1..][j - 1];
            }
          }
          assert FirstOfFeed(layers, feed, k + 1);
        }
      }
      assert (exists l :: l in layers && l.feedName == Some(feed)) ==> r.Some? by {
        if exists l :: l in layers && l.feedName == Some(feed) {
          var l :| l in layers && l.feedName == Some(feed);
          assert l in layers[1..];
        }
      }
      r
  }

  /** Some name the member holds starts with `feed`: the member counts as in the feed. */
  predicate InFeed(userNames: seq<string>, feed: string) {
    exists n :: n in userNames && StartsWith(n, feed)
  }

  /** The picked feeds the member is not in, each mapped to its first layer's role name. */
  function JoinTargets(selected: seq<string>, userNames: seq<string>, layers: seq<Layer>): (r: seq<Option<string>>)
    ensures forall t :: t in r <==> exists f :: f in selected && !InFeed(userNames, f) && t == FeedRoleName(layers, f)
  {
    if selected == [] then []
    else
      (if InFeed(userNames, selected[0]) then [] else [FeedRoleName(layers, selected[0])])
      + JoinTargets(selected[1..], userNames, layers)
  }

  /** The roles `handleJoin` adds in guild state `s` (read after the reconciler ran). */
  function JoinRoles(cs: seq<Channel>, s: GuildState, who: nat, selected: seq<string>): seq<Role>
    requires GuildLayers(cs).Returns? && who < |s.members|
  {
    ResolveRoles(s.roles, JoinTargets(selected, HeldNames(s.roles, s.members[who]), GuildLayers(cs).value))
  }

  /**
   * A feed is joined through the role of its first layer, and a picked feed the member is
   * already in adds nothing.
   */
  lemma JoinRolesMembers(cs: seq<Channel>, s: GuildState, who: nat, selected: seq<string>, x: Role)
    requires GuildLayers(cs).Returns? && who < |s.members|
    ensures x in JoinRoles(cs, s, who, selected) <==>
      exists f :: f in selected && !InFeed(HeldNames(s.roles, s.members[who]), f) &&
        FeedRoleName(GuildLayers(cs).value, f) == Some(x.name) && FindRole(s.roles, x.name) == Some(x)
  {
  }

  /**
   * When every layer role exists before `handleJoin`, its reconciler pass nukes them all
   * without remaking any, so the join finds no role to add: "No new feeds added".
   */
  lemma JoinAfterCompleteGuild(cs: seq<Channel>, s: GuildState, who: nat, selected: seq<string>, colorOf: string -> Color)
    requires GuildLayers(cs).Returns? && who < |s.members|
    requires forall l :: l in GuildLayers(cs).value ==> HasRoleNamed(s.roles, l.roleName)
    ensures var p := Fix(cs, s, false, colorOf);
      && p.result == Returns(Skipped)
      && |p.state.members| == |s.members|
      && JoinRoles(cs, p.state, who, selected) == []
  {
    var p := Fix(cs, s, false, colorOf);
    var layers := GuildLayers(cs).value;
    FixKeepsMembers(cs, s, false, colorOf);
    forall l | l in layers ensures l.roleName in RoleNames(s.roles) {
      var i :| 0 <= i < |s.roles| && s.roles[i].name == l.roleName;
      assert RoleNames(s.roles)[i] == l.roleName;
    }
    FixSkips(cs, s, false, colorOf);
    var targets := JoinTargets(selected, HeldNames(p.state.roles, p.state.members[who]), layers);
    forall t | t in targets && t.Some? ensures !HasRoleNamed(p.state.roles, t.value) {
      var f :| f in selected && t == FeedRoleName(layers, f);
      FeedRoleNuked(cs, s, colorOf, f);
    }
    ResolveNothing(p.state.roles, targets);
  }

  /** A feed's first layer role that existed before a pass is gone after it. */
  lemma FeedRoleNuked(cs: seq<Channel>, s: GuildState, colorOf: string -> Color, f: string)
    requires GuildLayers(cs).Returns? && FeedRoleName(GuildLayers(cs).value, f).Some?
    requires forall l :: l in GuildLayers(cs).value ==> HasRoleNamed(s.roles, l.roleName)
    ensures !HasRoleNamed(Fix(cs, s, false, colorOf).state.roles, FeedRoleName(GuildLayers(cs).value, f).value)
  {
    var layers := GuildLayers(cs).value;
    var l :| l in layers && l.feedName == Some(f) && l.roleName == FeedRoleName(layers, f).value;
    FixFlipsLayerRoles(cs, s, false, colorOf, l);
  }

  /** Names that no role has resolve to no role. */
  lemma ResolveNothing(rs: seq<Role>, names: seq<Option<string>>)
    requires forall n :: n in names && n.Some? ==> !HasRoleNamed(rs, n.value)
    ensures ResolveRoles(rs, names) == []
  {
  }

  /**
   * When no layer role exists before `handleJoin` and its pass returns, every layer role
   * has been made, so a picked feed with a layer that the member is not in is joined.
   */
  lemma JoinAfterEmptyGuild(cs: seq<Channel>, s: GuildState, who: nat, selected: seq<string>, colorOf: string -> Color, f: string)
    requires GuildLayers(cs).Returns? && who < |s.members|
    requires forall l :: l in GuildLayers(cs).value ==> !HasRoleNamed(s.roles, l.roleName)
    requires f in selected && exists l :: l in GuildLayers(cs).value && l.feedName == Some(f)
    ensures var p := Fix(cs, s, false, colorOf);
      && |p.state.members| == |s.members|
      && (!InFeed(HeldNames(p.state.roles, p.state.members[who]), f) ==>
            exists x :: x in JoinRoles(cs, p.state, who, selected) && x.name == FeedRoleName(GuildLayers(cs).value, f).value)
  {
    var p := Fix(cs, s, false, colorOf);
    var layers := GuildLayers(cs).value;
    FixKeepsMembers(cs, s, false, colorOf);
    var name := FeedRoleName(layers, f).value;
    var l :| l in layers && l.feedName == Some(f) && l.roleName == name;
    FixFlipsLayerRoles(cs, s, false, colorOf, l);
    if !InFeed(HeldNames(p.state.roles, p.state.members[who]), f) {
      var x := FindRole(p.state.roles, name).value;
      JoinRolesMembers(cs, p.state, who, selected, x);
    }
  }

  /** What `handleJoin` and `handleLeave` reply. */
  datatype Reply = NothingAdded | Added(roles: seq<Role>) | Removed(roles: seq<Role>)

  /**
   * `handleJoin`: run the reconciler, then add the joined roles; with none, reply that
   * nothing was added and change nothing more.
   */
  method HandleJoin(g: Guild, who: nat, selected: seq<string>, colorOf: string -> Color) returns (r: Outcome<Reply>)
    requires who < |g.members|
    requires g.Valid()
    modifies g
    ensures g.Valid()
    ensures var p := Fix(old(g.channels), old(g.State()), false, colorOf);
      && g.channels == old(g.channels) && g.outbox == old(g.outbox)
      && |p.state.members| == |old(g.members)|
      && (r.Throws? <==> p.result.Throws?)
      && (r.Throws? ==> g.State() == p.state)
      && (r.Returns? ==> GuildLayers(g.channels).Returns?)
      && (r.Returns? ==>
            var ids := JoinRoles(g.channels, p.state, who, selected);
            && (|ids| == 0 ==> r.value == NothingAdded && g.State() == p.state)
            && (|ids| > 0 ==> r.value == Added(ids) && g.State() == AddRolesTo(p.state, who, RoleIds(ids))))
  {
    FixKeepsMembers(g.channels, g.State(), false, colorOf);
    var fixed := g.FixRolesAndPermissions(false, colorOf);
    if fixed.Throws? {
      return Throws;
    }
    var userNames := HeldNames(g.roles, g.members[who]);
    var ids := ResolveRoles(g.roles, JoinTargets(selected, userNames, GuildLayers(g.channels).value));
    if |ids| == 0 {
      return Returns(NothingAdded);
    }
    g.AddMemberRoles(who, ids);
    return Returns(Added(ids));
  }

  // ---------------------------------------------------------------------------
  // handleLeave

  /**
   * `handleLeave`: run the reconciler, then take from the member the first role of each
   * picked name, skipping names no role has.
   */
  method HandleLeave(g: Guild, who: nat, selected: seq<string>, colorOf: string -> Color) returns (r: Outcome<Reply>)
    requires who < |g.members|
    requires g.Valid()
    modifies g
    ensures g.Valid()
    ensures var p := Fix(old(g.channels), old(g.State()), false, colorOf);
      && g.channels == old(g.channels) && g.outbox == old(g.outbox)
      && |p.state.members| == |old(g.members)|
      && (r.Throws? <==> p.result.Throws?)
      && (r.Throws? ==> g.State() == p.state)
      && (r.Returns? ==>
            var ids := ResolveRoles(p.state.roles, seq(|selected|, i requires 0 <= i < |selected| => Some(selected[i])));
            r.value == Removed(ids) && g.State() == RemoveRolesFrom(p.state, who, RoleIds(ids)))
  {
    FixKeepsMembers(g.channels, g.State(), false, colorOf);
    var fixed := g.FixRolesAndPermissions(false, colorOf);
    if fixed.Throws? {
      return Throws;
    }
    var ids := ResolveRoles(g.roles, seq(|selected|, i requires 0 <= i < |selected| => Some(selected[i])));
    g.RemoveMemberRoles(who, ids);
    return Returns(Removed(ids));
  }

  /** A picked name is removed exactly when some role of the guild has it. */
  lemma LeaveRemovesNamed(rs: seq<Role>, selected: seq<string>, x: Role)
    ensures x in ResolveRoles(rs, seq(|selected|, i requires 0 <= i < |selected| => Some(selected[i]))) <==>
      x.name in selected && FindRole(rs, x.name) == Some(x)
  {
    var names := seq(|selected|, i requires 0 <= i < |selected| => Some(selected[i]));
    if x.name in selected {
      var i :| 0 <= i < |selected| && selected[i] == x.name;
      assert names[i] == Some(x.name);
    }
  }

  // ---------------------------------------------------------------------------
  // list

  /** One field of the `/feeds list` embed. */
  datatype FeedRow = FeedRow(name: string, people: nat, layers: seq<Layer>, roles: seq<Option<Role>>)

  /** The members that are not bots and can see channel `c`, as the platform resolves it. */
  function People(ms: seq<Member>, c: Id, canView: (Member, Id) -> bool): (n: nat)
    ensures n <= |ms|
  {
    if ms == [] then 0
    else (if !ms[0].bot && canView(ms[0], c) then 1 else 0) + People(ms[1..], c, canView)
  }

  function NonBots(ms: seq<Member>): nat {
    if ms == [] then 0 else (if ms[0].bot then 0 else 1) + NonBots(ms[1..])
  }

  /**
   * The people count never counts a bot, even one that can see the feed; when every member
   * can see it, it counts exactly the members that are not bots.
   */
  lemma {:induction false} PeopleAreNotBots(ms: seq<Member>, c: Id, canView: (Member, Id) -> bool)
    ensures People(ms, c, canView) <= NonBots(ms)
    ensures (forall m :: m in ms ==> canView(m, c)) ==> People(ms, c, canView) == NonBots(ms)
  {
    if ms != [] {
      PeopleAreNotBots(ms[1..], c, canView);
      assert forall m :: m in ms[1..] ==> m in ms;
    }
  }

  /**
   * One more member adds one to the people count exactly when it is not a bot and can see
   * the feed: a bot, or a member that cannot see it, changes nothing.
   */
  lemma {:induction false} PeopleAppend(ms: seq<Member>, c: Id, canView: (Member, Id) -> bool, b: Member)
    ensures People(ms + [b], c, canView) == People(ms, c, canView) + (if !b.bot && canView(b, c) then 1 else 0)
  {
    if ms != [] {
      assert (ms + [b])[1..] == ms[1..] + [b];
      PeopleAppend(ms[1..], c, canView, b);
    }
  }

  /**
   * The role shown beside each layer of a row: present exactly when some role of the guild
   * has the layer's role name, and then the first such role.
   */
  function LayerRoles(rs: seq<Role>, ls: seq<Layer>): (r: seq<Option<Role>>)
    ensures |r| == |ls|
    ensures forall i :: 0 <= i < |ls| ==> (r[i].Some? <==> HasRoleNamed(rs, ls[i].roleName))
    ensures forall i :: 0 <= i < |ls| && r[i].Some? ==> FirstNamed(rs, ls[i].roleName, r[i].value)
  {
    var r := seq(|ls|, i requires 0 <= i < |ls| => FindRole(rs, ls[i].roleName));
    forall i | 0 <= i < |ls| && r[i].Some? ensures FirstNamed(rs, ls[i].roleName, r[i].value) {
      FindRoleIsFirst(rs, ls[i].roleName);
    }
    r
  }

  /** The rows of `/feeds list`: one per feed category that has at least one layer, in channel order. */
  function FeedRows(cats: seq<Channel>, m: LayerMap, s: GuildState, canView: (Member, Id) -> bool): (r: seq<FeedRow>)
    requires forall c :: c in cats ==> c.id in m
    ensures forall row :: row in r ==> |row.layers| > 0 && |row.roles| == |row.layers|
    ensures forall row :: row in r <==>
      exists c :: c in cats && |m[c.id]| > 0 &&
        row == FeedRow(c.name, People(s.members, c.id, canView), m[c.id], LayerRoles(s.roles, m[c.id]))
  {
    if cats == [] then []
    else
      var c := cats[0];
      (if |m[c.id]| > 0 then [FeedRow(c.name, People(s.members, c.id, canView), m[c.id], LayerRoles(s.roles, m[c.id]))] else [])
      + FeedRows(cats[1..], m, s, canView)
  }

  /**
   * `list`: run the reconciler, then show each feed category with at least one layer, its
   * non-bot viewers and its layers with their roles (who can view a category is the
   * platform's permission resolution, passed in as `canView`).
   */
  method List(g: Guild, canView: (Member, Id) -> bool, colorOf: string -> Color) returns (r: Outcome<seq<FeedRow>>)
    requires g.Valid()
    modifies g
    ensures g.Valid()
    ensures var p := Fix(old(g.channels), old(g.State()), false, colorOf);
      && g.channels == old(g.channels) && g.outbox == old(g.outbox) && g.State() == p.state
      && (r.Throws? <==> p.result.Throws?)
      && (r.Returns? ==> LayerMapOf(g.channels).Returns?)
      && (r.Returns? ==>
            var m := LayerMapOf(g.channels).value;
            && (forall c :: c in FeedChannels(g.channels) ==> c.id in m)
            && r.value == FeedRows(FeedChannels(g.channels), m, g.State(), canView))
  {
    FixKeepsMembers(g.channels, g.State(), false, colorOf);
    var fixed := g.FixRolesAndPermissions(false, colorOf);
    if fixed.Throws? {
      return Throws;
    }
    var m := LayerMapOf(g.channels).value;
    CategoriesAreKeys(g.channels, m);
    return Returns(FeedRows(FeedChannels(g.channels), m, g.State(), canView));
  }
}
