/**
 * The guild as the bot changes it in place: the class `Guild` holds the channel list,
 * the role list, the members, the overwrite and slow-mode tables, and the messages the
 * bot has sent. The platform's primitive effects (delete or create a role, add or remove
 * a member role, send a message) are single methods; `fixRolesAndPermissions` and
 * `setLayerProperties` of roleUtils.ts are the loops over them, each proved against the
 * functions of module Reconcile.
 */
module Server {
  import opened Base
  import opened Names
  import opened Topology
  import opened Reconcile

  /** A message the bot posted: the channel, and the message it surfaces. */
  datatype Post = Post(channel: Id, message: Id)

  /** One option of a select menu: its label (shown) and its value (sent back). */
  datatype MenuOption = MenuOption(caption: string, value: string)

  /** The guild's roles, in guild order, that the member holds. */
  function UserRoles(rs: seq<Role>, m: Member): (r: seq<Role>)
    ensures |r| <= |rs|
    ensures forall x :: x in r <==> x in rs && x.id in m.roles
  {
    if rs == [] then []
    else (if rs[0].id in m.roles then [rs[0]] else []) + UserRoles(rs[1..], m)
  }

  /** The name of the role every member of a guild has. */
  const EveryoneName: string := "@everyone"

  /** The guild's @everyone role: its id is the guild's own id, and it has no colour. */
  function EveryoneRole(guild: Id): Role {
    Role(guild, EveryoneName, "#000000")
  }

  /**
   * The member's role cache as the platform builds it: the guild's roles the member holds,
   * in guild order, and then the @everyone role, which every member's cache ends with.
   */
  function MemberCache(guild: Id, rs: seq<Role>, m: Member): (r: seq<Role>)
    ensures |r| == |UserRoles(rs, m)| + 1 && r[|r| - 1] == EveryoneRole(guild)
    ensures forall x :: x in r <==> (x in rs && x.id in m.roles) || x == EveryoneRole(guild)
    ensures RoleNames(r) == HeldNames(rs, m)
  {
    var r := UserRoles(rs, m) + [EveryoneRole(guild)];
    assert RoleNames(r) == RoleNames(UserRoles(rs, m)) + [EveryoneName];
    r
  }

  /** The names of the member's role cache, in cache order; the last one is "@everyone". */
  function HeldNames(rs: seq<Role>, m: Member): (r: seq<string>)
    ensures |r| >= 1 && r[|r| - 1] == EveryoneName
    ensures forall n :: n in r <==> n == EveryoneName || exists x :: x in rs && x.id in m.roles && x.name == n
  {
    var held := UserRoles(rs, m);
    var r := RoleNames(held) + [EveryoneName];
    forall n | n in r && n != EveryoneName ensures exists x :: x in rs && x.id in m.roles && x.name == n {
      var i :| 0 <= i < |held| && RoleNames(held)[i] == n;
      assert held[i] in held;
    }
    forall x | x in rs && x.id in m.roles ensures x.name in r {
      var i :| 0 <= i < |held| && held[i] == x;
      assert r[i] == x.name;
    }
    r
  }

  /** A role name that starts with one of the feed names. */
  predicate UnderSomeFeed(name: string, prefixes: seq<string>) {
    exists p :: p in prefixes && StartsWith(name, p)
  }

  /** The roles whose name starts with one of the prefixes, order kept. */
  function FeedRoles(prefixes: seq<string>, rs: seq<Role>): (r: seq<Role>)
    ensures |r| <= |rs|
    ensures forall x :: x in r <==> x in rs && UnderSomeFeed(x.name, prefixes)
  {
    if rs == [] then []
    else (if UnderSomeFeed(rs[0].name, prefixes) then [rs[0]] else []) + FeedRoles(prefixes, rs[1..])
  }

  /** A feed name that does not parse falls back to "", which every role name starts with. */
  lemma {:induction false} EmptyPrefixKeepsAll(prefixes: seq<string>, rs: seq<Role>)
    requires "" in prefixes
    ensures FeedRoles(prefixes, rs) == rs
  {
    if rs != [] {
      assert StartsWith(rs[0].name, "");
      EmptyPrefixKeepsAll(prefixes, rs[1..]);
      assert rs == [rs[0]] + rs[1..];
    }
  }

  /**
   * Each name looked up in the guild's roles, missing ones dropped: the first
   * role of each name, dropping names without a role; `undefined` names nothing.
   */
  function ResolveRoles(rs: seq<Role>, names: seq<Option<string>>): (r: seq<Role>)
    ensures |r| <= |names|
    ensures forall x :: x in r <==> exists n :: n in names && n.Some? && FindRole(rs, n.value) == Some(x)
  {
    if names == [] then []
    else
      var here := if names[0].None? then None else FindRole(rs, names[0].value);
      (if here.Some? then [here.value] else []) + ResolveRoles(rs, names[1..])
  }

  /** The member at `who` with the roles `ids` added (`roles.add`) or taken away (`roles.remove`). */
  function AddRolesTo(s: GuildState, who: nat, ids: set<Id>): GuildState
    requires who < |s.members|
  {
    s.(members := s.members[who := s.members[who].(roles := s.members[who].roles + ids)])
  }

  function RemoveRolesFrom(s: GuildState, who: nat, ids: set<Id>): GuildState
    requires who < |s.members|
  {
    s.(members := s.members[who := s.members[who].(roles := s.members[who].roles - ids)])
  }

  class Guild {
    /** The guild's id, which is also the id of its @everyone role. */
    const id: Id
    var channels: seq<Channel>
    var roles: seq<Role>
    var members: seq<Member>
    var overwrites: Overwrites
    var rateLimits: map<Id, nat>
    var nextId: nat
    var outbox: seq<Post>

    /** The part of the guild the reconciler reads and writes. */
    function State(): GuildState
      reads this
    {
      GuildState(roles, members, overwrites, rateLimits, nextId)
    }

    /** Channel ids are distinct, role ids are distinct and below the next id. */
    ghost predicate Valid()
      reads this
    {
      UniqueIds(channels) && WellFormed(State())
    }

    constructor (guild: Id, cs: seq<Channel>, s: GuildState)
      requires UniqueIds(cs) && WellFormed(s)
      ensures Valid()
      ensures id == guild && channels == cs && State() == s && outbox == []
    {
      id := guild;
      channels := cs;
      roles := s.roles;
      members := s.members;
      overwrites := s.overwrites;
      rateLimits := s.rateLimits;
      nextId := s.nextId;
      outbox := [];
    }

    // -------------------------------------------------------------------------
    // Platform effects

    /** Delete one role of the guild. */
    method DeleteRole(id: Id)
      requires Valid()
      modifies this
      ensures Valid()
      ensures State() == Reconcile.DeleteRole(old(State()), id)
      ensures channels == old(channels) && outbox == old(outbox)
    {
      DeleteRoleWellFormed(State(), id);
      var s := Reconcile.DeleteRole(State(), id);
      roles, members, overwrites := s.roles, s.members, s.overwrites;
    }

    /** Create a role with the spec's name and colour. */
    method CreateRole(spec: RoleSpec) returns (r: Role)
      requires Valid()
      modifies this
      ensures Valid()
      ensures State() == Reconcile.CreateRole(old(State()), spec)
      ensures r == Role(old(nextId), spec.name, spec.color)
      ensures channels == old(channels) && outbox == old(outbox)
    {
      CreateRoleWellFormed(State(), spec);
      r := Role(nextId, spec.name, spec.color);
      roles := roles + [r];
      nextId := nextId + 1;
    }

    /** Add one role to the member at index `who`. */
    method AddMemberRole(who: nat, id: Id)
      requires who < |members|
      requires Valid()
      modifies this`members
      ensures Valid()
      ensures members == old(members)[who := old(members)[who].(roles := old(members)[who].roles + {id})]
    {
      members := members[who := members[who].(roles := members[who].roles + {id})];
    }

    /** Remove one role from the member at index `who`. */
    method RemoveMemberRole(who: nat, id: Id)
      requires who < |members|
      requires Valid()
      modifies this`members
      ensures Valid()
      ensures members == old(members)[who := old(members)[who].(roles := old(members)[who].roles - {id})]
    {
      members := members[who := members[who].(roles := members[who].roles - {id})];
    }

    /** Add each of the roles `rs`, one call at a time, to the member at index `who`. */
    method AddMemberRoles(who: nat, rs: seq<Role>)
      requires who < |members|
      requires Valid()
      modifies this`members
      ensures Valid()
      ensures State() == AddRolesTo(old(State()), who, RoleIds(rs))
    {
      assert RoleIds(rs[..0]) == {};
      assert members[who].roles + {} == members[who].roles;
      for i := 0 to |rs|
        invariant |members| == |old(members)|
        invariant forall j :: 0 <= j < |members| && j != who ==> members[j] == old(members)[j]
        invariant members[who] == old(members)[who].(roles := old(members)[who].roles + RoleIds(rs[..i]))
      {
        assert RoleIds(rs[..i + 1]) == RoleIds(rs[..i]) + {rs[i].id} by {
          assert rs[..i + 1] == rs[..i] + [rs[i]];
        }
        AddMemberRole(who, rs[i].id);
      }
      assert rs[..|rs|] == rs;
    }

    /** Remove each of the roles `rs`, one call at a time, from the member at index `who`. */
    method RemoveMemberRoles(who: nat, rs: seq<Role>)
      requires who < |members|
      requires Valid()
      modifies this`members
      ensures Valid()
      ensures State() == RemoveRolesFrom(old(State()), who, RoleIds(rs))
    {
      assert RoleIds(rs[..0]) == {};
      assert members[who].roles - {} == members[who].roles;
      for i := 0 to |rs|
        invariant |members| == |old(members)|
        invariant forall j :: 0 <= j < |members| && j != who ==> members[j] == old(members)[j]
        invariant members[who] == old(members)[who].(roles := old(members)[who].roles - RoleIds(rs[..i]))
      {
        assert RoleIds(rs[..i + 1]) == RoleIds(rs[..i]) + {rs[i].id} by {
          assert rs[..i + 1] == rs[..i] + [rs[i]];
        }
        RemoveMemberRole(who, rs[i].id);
      }
      assert rs[..|rs|] == rs;
    }

    /** Post a message to a channel. */
    method Send(p: Post)
      requires Valid()
      modifies this`outbox
      ensures Valid()
      ensures outbox == old(outbox) + [p]
    {
      outbox := outbox + [p];
    }

    // -------------------------------------------------------------------------
    // fixRolesAndPermissions, step by step

    /** Delete every role with a nonzero depth, one at a time in list order. */
    method DeletePaceRoles() returns (deleted: seq<Role>)
      requires Valid()
      modifies this
      ensures Valid()
      ensures deleted == PaceRoles(old(roles))
      ensures State() == DeleteRoles(old(State()), deleted)
      ensures channels == old(channels) && outbox == old(outbox)
    {
      deleted := PaceRoles(roles);
      for i := 0 to |deleted|
        invariant Valid()
        invariant DeleteRoles(State(), deleted[i..]) == DeleteRoles(old(State()), deleted)
        invariant channels == old(channels) && outbox == old(outbox)
      {
        ghost var before := State();
        DeleteRole(deleted[i].id);
        assert deleted[i..][0] == deleted[i] && deleted[i..][1..] == deleted[i + 1..];
        assert DeleteRoles(before, deleted[i..]) == DeleteRoles(State(), deleted[i + 1..]);
      }
    }

    /** Create one role per spec, one at a time in list order. */
    method CreateRoles(specs: seq<RoleSpec>)
      requires Valid()
      modifies this
      ensures Valid()
      ensures State() == Reconcile.CreateRoles(old(State()), specs)
      ensures channels == old(channels) && outbox == old(outbox)
    {
      for i := 0 to |specs|
        invariant Valid()
        invariant Reconcile.CreateRoles(State(), specs[i..]) == Reconcile.CreateRoles(old(State()), specs)
        invariant channels == old(channels) && outbox == old(outbox)
      {
        assert specs[i..] == [specs[i]] + specs[i + 1..];
        var _ := CreateRole(specs[i]);
      }
    }

    /** Add the P0 roles to every member of the guild, bots included. */
    method GrantToAll(rs: seq<Role>)
      requires Valid()
      modifies this`members
      ensures Valid()
      ensures members == GrantMembers(old(members), RoleIds(rs))
    {
      var ids := RoleIds(rs);
      for i := 0 to |members|
        invariant |members| == |old(members)|
        invariant forall j :: 0 <= j < i ==> members[j] == old(members)[j].(roles := old(members)[j].roles + ids)
        invariant forall j :: i <= j < |members| ==> members[j] == old(members)[j]
      {
        members := members[i := members[i].(roles := members[i].roles + ids)];
      }
    }

    /**
     * The inner loop for one layer: allow its role (when the role exists) on
     * each viewable layer, set that layer's slow-mode, and count it.
     */
    method GrantViewsIn(role: Option<Role>, vls: seq<Layer>, count: nat) returns (count': nat)
      requires Valid()
      modifies this`overwrites, this`rateLimits
      ensures Valid()
      ensures Tables(overwrites, rateLimits, count') == GrantViews(Tables(old(overwrites), old(rateLimits), count), role, vls)
    {
      count' := count;
      for k := 0 to |vls|
        invariant Valid()
        invariant GrantViews(Tables(overwrites, rateLimits, count'), role, vls[k..])
               == GrantViews(Tables(old(overwrites), old(rateLimits), count), role, vls)
      {
        var vl := vls[k];
        assert vls[k..][1..] == vls[k + 1..];
        if role.Some? {
          overwrites := overwrites[(vl.channel, RoleOf(role.value.id)) := true];
        }
        rateLimits := rateLimits[vl.channel := RateSeconds(vl.depth)];
        count' := count' + 1;
      }
    }

    /** The outer loop in one feed category: cascade each layer's role downwards. */
    method GrantLayersIn(layers: seq<Layer>, count: nat) returns (count': nat)
      requires Valid()
      modifies this`overwrites, this`rateLimits
      ensures Valid()
      ensures Tables(overwrites, rateLimits, count') == GrantLayers(Tables(old(overwrites), old(rateLimits), count), roles, layers, layers)
    {
      count' := count;
      for j := 0 to |layers|
        invariant Valid()
        invariant GrantLayers(Tables(overwrites, rateLimits, count'), roles, layers, layers[j..])
               == GrantLayers(Tables(old(overwrites), old(rateLimits), count), roles, layers, layers)
      {
        var l := layers[j];
        assert layers[j..][1..] == layers[j + 1..];
        var layerRole := FindRole(roles, l.roleName);
        count' := GrantViewsIn(layerRole, Viewable(layers, l.depth), count');
      }
    }

    /** One category's callback of `setLayerProperties`. */
    method CategoryStepIn(steward: Role, cat: Channel, layers: seq<Layer>, count: nat) returns (count': nat)
      requires Valid()
      modifies this`overwrites, this`rateLimits
      ensures Valid()
      ensures Tables(overwrites, rateLimits, count') == CategoryStep(Tables(old(overwrites), old(rateLimits), count), steward, cat, layers, roles)
    {
      overwrites := overwrites[(cat.id, RoleOf(steward.id)) := true];
      if IsWorkflow(cat.name) {
        overwrites := overwrites[(cat.id, Everyone) := false];
        count' := GrantLayersIn(layers, count);
      } else {
        overwrites := overwrites - {(cat.id, Everyone)};
        count' := count + 1;
      }
    }

    /**
     * `setLayerProperties`: for each category of the layer map, in key order, run its
     * callback. Returns `channelsModified`, or throws as `Cascade` says, having written
     * nothing.
     */
    method SetLayerProperties() returns (r: Outcome<nat>)
      requires Valid()
      modifies this`overwrites, this`rateLimits
      ensures Valid()
      ensures r.Throws? <==> Cascade(channels, roles, Tables(old(overwrites), old(rateLimits), 0)).Throws?
      ensures r.Throws? ==> overwrites == old(overwrites) && rateLimits == old(rateLimits)
      ensures r.Returns? ==> Cascade(channels, roles, Tables(old(overwrites), old(rateLimits), 0))
                             == Returns(Tables(overwrites, rateLimits, r.value))
    {
      ghost var t0 := Tables(overwrites, rateLimits, 0);
      var lm := GetLayerMap(channels);
      if lm.Throws? {
        return Throws;
      }
      var m := lm.value;
      var botRole := FindRole(roles, "Steward");
      var cats := CategoryChannels(channels);
      if botRole.None? {
        if |cats| == 0 {
          assert Cascade(channels, roles, t0) == Returns(t0);
          return Returns(0);
        }
        return Throws;
      }
      var steward := botRole.value;
      CategoriesAreKeys(channels, m);
      assert Cascade(channels, roles, t0) == Returns(CascadeOver(t0, steward, cats, m, roles));
      var modified := CascadeIn(steward, cats, m);
      return Returns(modified);
    }

    /** The loop of `setLayerProperties`: each category's callback in turn, counting from 0. */
    method CascadeIn(steward: Role, cats: seq<Channel>, m: LayerMap) returns (modified: nat)
      requires forall c :: c in cats ==> c.id in m
      requires Valid()
      modifies this`overwrites, this`rateLimits
      ensures Valid()
      ensures Tables(overwrites, rateLimits, modified) == CascadeOver(Tables(old(overwrites), old(rateLimits), 0), steward, cats, m, roles)
    {
      modified := 0;
      ghost var target := CascadeOver(Tables(overwrites, rateLimits, 0), steward, cats, m, roles);
      for i := 0 to |cats|
        invariant Valid()
        invariant CascadeOver(Tables(overwrites, rateLimits, modified), steward, cats[i..], m, roles) == target
      {
        assert cats[i..][1..] == cats[i + 1..];
        modified := CategoryStepIn(steward, cats[i], m[cats[i].id], modified);
      }
    }

    /**
     * `fixRolesAndPermissions(g, force)`: the whole pass, leaving the guild and returning
     * the result exactly as the function `Fix` describes.
     */
    method FixRolesAndPermissions(force: bool, colorOf: string -> Color) returns (r: Outcome<FixResult>)
      requires Valid()
      modifies this
      ensures Valid()
      ensures Pass(r, State()) == Fix(channels, old(State()), force, colorOf)
      ensures channels == old(channels) && outbox == old(outbox)
    {
      var snapshot := roles;
      var _ := DeletePaceRoles();
      r := MakeAndBind(snapshot, force, colorOf);
    }

    /** The rest of the pass: diff against `snapshot`, create, grant the P0 roles, cascade. */
    method MakeAndBind(snapshot: seq<Role>, force: bool, colorOf: string -> Color) returns (r: Outcome<FixResult>)
      requires Valid()
      modifies this
      ensures Valid()
      ensures Pass(r, State()) == FixAfterNuke(channels, snapshot, old(State()), force, colorOf)
      ensures channels == old(channels) && outbox == old(outbox)
    {
      var lm := GetLayerMap(channels);
      if lm.Throws? {
        return Throws;
      }
      CategoriesAreKeys(channels, lm.value);
      var layerRoles := AllLayers(lm.value, CategoryChannels(channels));
      assert GuildLayers(channels) == Returns(layerRoles);
      var rolesToMake := RolesToMake(RoleNames(snapshot), layerRoles, colorOf);
      if |rolesToMake| == 0 && !force {
        return Returns(Skipped);
      }
      r := Bind(rolesToMake);
    }

    /** Create `rolesToMake`, grant the P0 roles to every member, then `setLayerProperties`. */
    method Bind(rolesToMake: seq<RoleSpec>) returns (r: Outcome<FixResult>)
      requires Valid()
      modifies this
      ensures Valid()
      ensures Pass(r, State()) == MakeAndBindPass(channels, old(State()), rolesToMake)
      ensures channels == old(channels) && outbox == old(outbox)
    {
      ghost var s1 := State();
      CreateRoles(rolesToMake);
      ghost var s2 := State();
      assert s2 == Reconcile.CreateRoles(s1, rolesToMake);
      GrantToAll(P0Roles(roles));
      assert State() == GrantAll(s2, RoleIds(P0Roles(s2.roles)));
      var done := SetLayerProperties();
      if done.Throws? {
        return Throws;
      }
      return Returns(Made(rolesToMake));
    }
  }
}
