/**
 * The guild state the reconciler of roleUtils.ts works on, and the effect of each of
 * its steps as a function of that state: deleting pace roles, creating the missing
 * layer roles, granting the P0 roles, and the permission cascade of setLayerProperties.
 * The `Guild` class in module Server performs these steps in place and is proved
 * against the functions here.
 */
module Reconcile {
  import opened Base
  import opened Names
  import opened Topology

  /** A colour as handed to `roles.create`: a hex string, or "RANDOM". */
  type Color = string

  datatype Role = Role(id: Id, name: string, color: Color)

  /** A guild member: whether it is a bot, and the ids of the roles it holds. */
  datatype Member = Member(id: Id, bot: bool, roles: set<Id>)

  /** `{ name, color }`, a role to create. */
  datatype RoleSpec = RoleSpec(name: string, color: Color)

  /** Whom a permission overwrite is for: the @everyone role or one role of the guild. */
  datatype Principal = Everyone | RoleOf(role: Id)

  /** VIEW_CHANNEL overwrites per (channel, principal): `true` allows, `false` denies. */
  type Overwrites = map<(Id, Principal), bool>

  /**
   * What the reconciler reads and writes: the role list in cache order, the members,
   * the overwrite table, the slow-mode table (seconds per channel) and the next role id
   * the platform hands out.
   */
  datatype GuildState = GuildState(
    roles: seq<Role>,
    members: seq<Member>,
    overwrites: Overwrites,
    rateLimits: map<Id, nat>,
    nextId: nat)

  /** Role ids are distinct and below the next id to hand out. */
  ghost predicate WellFormed(s: GuildState) {
    && (forall i, j :: 0 <= i < j < |s.roles| ==> s.roles[i].id != s.roles[j].id)
    && (forall i :: 0 <= i < |s.roles| ==> s.roles[i].id < s.nextId)
  }

  // ---------------------------------------------------------------------------
  // Role lists

  function RoleNames(rs: seq<Role>): (r: seq<string>)
    ensures |r| == |rs| && forall i :: 0 <= i < |rs| ==> r[i] == rs[i].name
  {
    if rs == [] then [] else [rs[0].name] + RoleNames(rs[1..])
  }

  /** Some role of `rs` is called `name`. */
  predicate HasRoleNamed(rs: seq<Role>, name: string) {
    exists i :: 0 <= i < |rs| && rs[i].name == name
  }

  /** The first role with exactly that name, as a lookup in the role cache finds it. */
  function FindRole(rs: seq<Role>, name: string): (r: Option<Role>)
    ensures r.Some? <==> HasRoleNamed(rs, name)
    ensures r.Some? ==> r.value in rs && r.value.name == name
  {
    if rs == [] then None
    else if rs[0].name == name then Some(rs[0])
    else
      assert HasRoleNamed(rs, name) ==> HasRoleNamed(rs[1..], name) by {
        if HasRoleNamed(rs, name) {
          var i :| 0 <= i < |rs| && rs[i].name == name;
          assert rs[1..][i - 1].name == name;
        }
      }
      FindRole(rs[1..], name)
  }

  /** `x` is the first role of `rs` called `name`. */
  ghost predicate FirstNamed(rs: seq<Role>, name: string, x: Role) {
    exists k :: 0 <= k < |rs| && rs[k] == x && x.name == name && forall j :: 0 <= j < k ==> rs[j].name != name
  }

  /** The role found comes before every other role with that name. */
  lemma {:induction false} FindRoleIsFirst(rs: seq<Role>, name: string)
    requires HasRoleNamed(rs, name)
    ensures exists i :: 0 <= i < |rs| && rs[i] == FindRole(rs, name).value &&
                        forall j :: 0 <= j < i ==> rs[j].name != name
  {
    if rs[0].name != name {
      var i0 :| 0 <= i0 < |rs| && rs[i0].name == name;
      assert rs[1..][i0 - 1].name == name;
      FindRoleIsFirst(rs[1..], name);
      var i :| 0 <= i < |rs[1..]| && rs[1..][i] == FindRole(rs[1..], name).value
        && forall j :: 0 <= j < i ==> rs[1..][j].name != name;
      assert rs[i + 1] == FindRole(rs, name).value;
      forall j | 0 <= j < i + 1 ensures rs[j].name != name {
        if j > 0 {
          assert rs[j] == rs[1..][j - 1];
        }
      }
    } else {
      assert rs[0] == FindRole(rs, name).value;
    }
  }

  /** `getPaceRoleDepth(r)` is truthy: the name ends in ` P<digits>` with a nonzero value. */
  predicate HasNonzeroDepth(name: string) {
    RoleDepth(name).Some? && RoleDepth(name).value != 0
  }

  /** The roles whose name has a nonzero pace depth, in list order: the roles the reconciler nukes. */
  function PaceRoles(rs: seq<Role>): (r: seq<Role>)
    ensures forall x :: x in r <==> x in rs && HasNonzeroDepth(x.name)
  {
    if rs == [] then []
    else (if HasNonzeroDepth(rs[0].name) then [rs[0]] else []) + PaceRoles(rs[1..])
  }

  /** `getP0Roles`: the roles whose name ends in ` P0` (or ` P00`, ...). */
  function P0Roles(rs: seq<Role>): (r: seq<Role>)
    ensures forall x :: x in r <==> x in rs && RoleDepth(x.name) == Some(0)
  {
    if rs == [] then []
    else (if RoleDepth(rs[0].name) == Some(0) then [rs[0]] else []) + P0Roles(rs[1..])
  }

  function RoleIds(rs: seq<Role>): (r: set<Id>)
    ensures forall id :: id in r <==> exists x :: x in rs && x.id == id
  {
    set x | x in rs :: x.id
  }

  /** A P0 role never has a nonzero depth, so no role is both nuked and granted. */
  lemma P0NeverNuked(rs: seq<Role>, x: Role)
    requires x in P0Roles(rs)
    ensures x !in PaceRoles(rs)
  {
  }

  // ---------------------------------------------------------------------------
  // Deleting roles

  function WithoutRole(rs: seq<Role>, id: Id): (r: seq<Role>)
    ensures forall x :: x in r <==> x in rs && x.id != id
  {
    if rs == [] then []
    else (if rs[0].id == id then [] else [rs[0]]) + WithoutRole(rs[1..], id)
  }

  /** Every member with one role id taken out of its role set. */
  function StripMembers(ms: seq<Member>, ids: set<Id>): (r: seq<Member>)
    ensures |r| == |ms|
    ensures forall i :: 0 <= i < |ms| ==> r[i] == ms[i].(roles := ms[i].roles - ids)
  {
    seq(|ms|, i requires 0 <= i < |ms| => ms[i].(roles := ms[i].roles - ids))
  }

  /** Every member with a set of role ids added to its role set. */
  function GrantMembers(ms: seq<Member>, ids: set<Id>): (r: seq<Member>)
    ensures |r| == |ms|
    ensures forall i :: 0 <= i < |ms| ==> r[i] == ms[i].(roles := ms[i].roles + ids)
  {
    seq(|ms|, i requires 0 <= i < |ms| => ms[i].(roles := ms[i].roles + ids))
  }

  /**
   * Deleting a role: the platform drops the role from the role list, from every member
   * holding it and from every permission overwrite naming it.
   */
  function DeleteRole(s: GuildState, id: Id): (r: GuildState)
    ensures forall x :: x in r.roles <==> x in s.roles && x.id != id
    ensures forall k :: k in r.overwrites <==> k in s.overwrites && k.1 != RoleOf(id)
    ensures forall k :: k in r.overwrites ==> r.overwrites[k] == s.overwrites[k]
  {
    GuildState(
      WithoutRole(s.roles, id),
      StripMembers(s.members, {id}),
      map k | k in s.overwrites && k.1 != RoleOf(id) :: s.overwrites[k],
      s.rateLimits,
      s.nextId)
  }

  /** Deleting each role of `rs`, in list order. */
  function DeleteRoles(s: GuildState, rs: seq<Role>): GuildState
    decreases rs
  {
    if rs == [] then s else DeleteRoles(DeleteRole(s, rs[0].id), rs[1..])
  }

  /** Deleting a list of roles removes exactly the roles with those ids, everywhere. */
  lemma {:induction false} DeleteRolesEffect(s: GuildState, rs: seq<Role>)
    decreases rs
    ensures var r := DeleteRoles(s, rs);
      && (forall x :: x in r.roles <==> x in s.roles && x.id !in RoleIds(rs))
      && r.members == StripMembers(s.members, RoleIds(rs))
      && (forall k :: k in r.overwrites <==> k in s.overwrites && !(k.1.RoleOf? && k.1.role in RoleIds(rs)))
      && (forall k :: k in r.overwrites ==> r.overwrites[k] == s.overwrites[k])
      && r.rateLimits == s.rateLimits && r.nextId == s.nextId
  {
    if rs == [] {
      assert RoleIds(rs) == {};
      StripNothing(s.members);
    } else {
      var s1 := DeleteRole(s, rs[0].id);
      DeleteRolesEffect(s1, rs[1..]);
      assert RoleIds(rs) == {rs[0].id} + RoleIds(rs[1..]) by {
        assert rs == [rs[0]] + rs[1..];
      }
      StripTwice(s.members, {rs[0].id}, RoleIds(rs[1..]));
    }
  }

  lemma StripNothing(ms: seq<Member>)
    ensures StripMembers(ms, {}) == ms
  {
    var r := StripMembers(ms, {});
    assert forall i :: 0 <= i < |ms| ==> r[i] == ms[i];
  }

  lemma StripTwice(ms: seq<Member>, a: set<Id>, b: set<Id>)
    ensures StripMembers(StripMembers(ms, a), b) == StripMembers(ms, a + b)
  {
    var x, y := StripMembers(StripMembers(ms, a), b), StripMembers(ms, a + b);
    forall i | 0 <= i < |ms| ensures x[i] == y[i] {
      assert ms[i].roles - a - b == ms[i].roles - (a + b);
    }
  }

  /**
   * Nuking the pace roles keeps exactly the roles whose name has no nonzero depth:
   * every role ending in ` P<n>` with n > 0 goes, P0 roles and other roles stay.
   */
  lemma NukeKeepsExactly(s: GuildState)
    requires WellFormed(s)
    ensures forall x :: x in DeleteRoles(s, PaceRoles(s.roles)).roles <==> x in s.roles && !HasNonzeroDepth(x.name)
  {
    var pace := PaceRoles(s.roles);
    DeleteRolesKeeps(s, pace);
    forall x | x in s.roles && x.id in RoleIds(pace) ensures HasNonzeroDepth(x.name) {
      var y :| y in pace && y.id == x.id;
      SameIdSameRole(s.roles, x, y);
    }
    forall x | x in s.roles && HasNonzeroDepth(x.name) ensures x.id in RoleIds(pace) {
      assert x in pace;
    }
  }

  /** The roles left after deleting a list: exactly those whose id is not on it. */
  lemma DeleteRolesKeeps(s: GuildState, rs: seq<Role>)
    ensures forall x :: x in DeleteRoles(s, rs).roles <==> x in s.roles && x.id !in RoleIds(rs)
  {
    DeleteRolesEffect(s, rs);
  }

  /** No two entries of a role list share an id. */
  predicate RoleIdsDistinct(rs: seq<Role>) {
    forall i, j :: 0 <= i < j < |rs| ==> rs[i].id != rs[j].id
  }

  /** In a list with distinct ids, an id names one role. */
  lemma SameIdSameRole(rs: seq<Role>, x: Role, y: Role)
    requires RoleIdsDistinct(rs) && x in rs && y in rs && x.id == y.id
    ensures x == y
  {
    var i :| 0 <= i < |rs| && rs[i] == x;
    var j :| 0 <= j < |rs| && rs[j] == y;
    assert !(i < j) && !(j < i);
  }

  /** Filtering a role list keeps its ids distinct. */
  lemma {:induction false} WithoutRoleDistinct(rs: seq<Role>, id: Id)
    requires RoleIdsDistinct(rs)
    ensures RoleIdsDistinct(WithoutRole(rs, id))
  {
    if rs != [] {
      WithoutRoleDistinct(rs[1..], id);
      var rest := WithoutRole(rs[1..], id);
      if rs[0].id != id {
        forall y | y in rest ensures y.id != rs[0].id {
          var k :| 0 <= k < |rs| - 1 && rs[1..][k] == y;
          assert rs[k + 1] == y;
        }
        ConsDistinct(rs[0], rest);
      }
    }
  }

  lemma ConsDistinct(x: Role, rest: seq<Role>)
    requires RoleIdsDistinct(rest)
    requires forall y :: y in rest ==> y.id != x.id
    ensures RoleIdsDistinct([x] + rest)
  {
    var r := [x] + rest;
    forall i, j | 0 <= i < j < |r| ensures r[i].id != r[j].id {
      assert r[j] == rest[j - 1];
      if i == 0 {
        assert rest[j - 1] in rest;
      } else {
        assert r[i] == rest[i - 1];
      }
    }
  }

  /** Deleting roles keeps a guild state well formed. */
  lemma {:induction false} DeleteRolesWellFormed(s: GuildState, rs: seq<Role>)
    requires WellFormed(s)
    decreases rs
    ensures WellFormed(DeleteRoles(s, rs))
  {
    if rs != [] {
      DeleteRoleWellFormed(s, rs[0].id);
      DeleteRolesWellFormed(DeleteRole(s, rs[0].id), rs[1..]);
    }
  }

  /** Deleting one role keeps a guild state well formed. */
  lemma DeleteRoleWellFormed(s: GuildState, id: Id)
    requires WellFormed(s)
    ensures WellFormed(DeleteRole(s, id))
  {
    var s1 := DeleteRole(s, id);
    assert RoleIdsDistinct(s.roles);
    WithoutRoleDistinct(s.roles, id);
    assert RoleIdsDistinct(s1.roles);
    forall i | 0 <= i < |s1.roles| ensures s1.roles[i].id < s1.nextId {
      assert s1.roles[i] in s.roles;
    }
  }

  // ---------------------------------------------------------------------------
  // Creating roles and granting P0 roles

  /** Creating a role: a new role with a fresh id at the end of the list. */
  function CreateRole(s: GuildState, spec: RoleSpec): GuildState {
    s.(roles := s.roles + [Role(s.nextId, spec.name, spec.color)], nextId := s.nextId + 1)
  }

  /** The roles `CreateRoles` appends: consecutive fresh ids, in the order given. */
  function NewRoles(first: nat, specs: seq<RoleSpec>): (r: seq<Role>)
    decreases specs
    ensures |r| == |specs|
  {
    if specs == [] then [] else [Role(first, specs[0].name, specs[0].color)] + NewRoles(first + 1, specs[1..])
  }

  /** Every new role's id is at least the first id handed out. */
  lemma NewRolesAbove(first: nat, specs: seq<RoleSpec>)
    ensures forall x :: x in NewRoles(first, specs) ==> x.id >= first
  {
    forall x | x in NewRoles(first, specs) ensures x.id >= first {
      var i :| 0 <= i < |NewRoles(first, specs)| && NewRoles(first, specs)[i] == x;
      NewRolesAt(first, specs, i);
    }
  }

  /** The i-th new role has id `first + i` and the i-th spec's name and colour. */
  lemma {:induction false} NewRolesAt(first: nat, specs: seq<RoleSpec>, i: nat)
    requires i < |specs|
    decreases specs
    ensures NewRoles(first, specs)[i] == Role(first + i, specs[i].name, specs[i].color)
  {
    if i > 0 {
      NewRolesAt(first + 1, specs[1..], i - 1);
    }
  }

  /** Creating one role per spec, in list order. */
  function CreateRoles(s: GuildState, specs: seq<RoleSpec>): GuildState
    decreases specs
  {
    if specs == [] then s else CreateRoles(CreateRole(s, specs[0]), specs[1..])
  }

  /** Creating appends one role per spec, with fresh ids, and touches nothing else. */
  lemma {:induction false} CreateRolesEffect(s: GuildState, specs: seq<RoleSpec>)
    decreases specs
    ensures CreateRoles(s, specs).roles == s.roles + NewRoles(s.nextId, specs)
    ensures CreateRoles(s, specs).nextId == s.nextId + |specs|
    ensures CreateRoles(s, specs).members == s.members
    ensures CreateRoles(s, specs).overwrites == s.overwrites
    ensures CreateRoles(s, specs).rateLimits == s.rateLimits
  {
    if specs == [] {
      assert NewRoles(s.nextId, specs) == [];
    } else {
      var s1 := CreateRole(s, specs[0]);
      var r := CreateRoles(s1, specs[1..]);
      assert CreateRoles(s, specs) == r;
      CreateRolesEffect(s1, specs[1..]);
      var first := Role(s.nextId, specs[0].name, specs[0].color);
      var rest := NewRoles(s.nextId + 1, specs[1..]);
      assert NewRoles(s.nextId, specs) == [first] + rest;
      assert r.roles == (s.roles + [first]) + rest;
    }
  }

  /** Creating roles keeps role ids distinct and below the next id. */
  lemma CreateRolesWellFormed(s: GuildState, specs: seq<RoleSpec>)
    requires WellFormed(s)
    ensures WellFormed(CreateRoles(s, specs))
  {
    CreateRolesEffect(s, specs);
    var r := CreateRoles(s, specs);
    var n := |s.roles|;
    forall i | 0 <= i < |r.roles| ensures r.roles[i].id < r.nextId && (i >= n ==> r.roles[i].id == s.nextId + i - n) {
      if i >= n {
        assert r.roles[i] == NewRoles(s.nextId, specs)[i - n];
        NewRolesAt(s.nextId, specs, i - n);
      } else {
        assert r.roles[i] == s.roles[i];
      }
    }
  }

  /** Creating one role keeps a guild state well formed. */
  lemma CreateRoleWellFormed(s: GuildState, spec: RoleSpec)
    requires WellFormed(s)
    ensures WellFormed(CreateRole(s, spec))
  {
    CreateRolesWellFormed(s, [spec]);
    assert CreateRoles(s, [spec]) == CreateRoles(CreateRole(s, spec), []);
  }

  /** Every member, bots included, gets the roles `ids` added. */
  function GrantAll(s: GuildState, ids: set<Id>): GuildState {
    s.(members := GrantMembers(s.members, ids))
  }

  // ---------------------------------------------------------------------------
  // setLayerProperties: the permission cascade and slow-mode

  function Pow4(d: nat): (r: nat)
    ensures r >= 1
  {
    if d == 0 then 1 else 4 * Pow4(d - 1)
  }

  /** Slow-mode of a layer at depth `d`: one hour, divided by four per level (rounded down). */
  function RateSeconds(d: nat): nat {
    if d == 0 then 3600 else RateSeconds(d - 1) / 4
  }

  /**
   * The slow-mode of depth `d` is the floor of 3600 / 4^d seconds
   * (exact in floating point, since 4^-d is a power of two).
   */
  lemma RateSecondsIsFloor(d: nat)
    ensures Pow4(d) * RateSeconds(d) <= 3600 < Pow4(d) * (RateSeconds(d) + 1)
  {
    if d >= 6 {
      RateSecondsDeep(d);
      Pow4Deep(d);
    } else {
      assert Pow4(1) == 4 && Pow4(2) == 16 && Pow4(3) == 64 && Pow4(4) == 256 && Pow4(5) == 1024;
      assert RateSeconds(4) == 14 && RateSeconds(5) == 3;
    }
  }

  /** From depth 6 on, 4^d exceeds an hour in seconds. */
  lemma {:induction false} Pow4Deep(d: nat)
    requires d >= 6
    ensures Pow4(d) > 3600
  {
    if d > 6 {
      Pow4Deep(d - 1);
    } else {
      assert Pow4(5) == 1024;
    }
  }

  /** Slow-mode is one hour at depth 0, then 15 minutes, 225 s, 56 s. */
  lemma RateSecondsValues()
    ensures RateSeconds(0) == 3600 && RateSeconds(1) == 900 && RateSeconds(2) == 225 && RateSeconds(3) == 56
  {
  }

  /** Deeper layers are never slower than shallower ones. */
  lemma {:induction false} RateSecondsMonotone(a: nat, b: nat)
    requires a <= b
    ensures RateSeconds(b) <= RateSeconds(a)
  {
    if a < b {
      RateSecondsMonotone(a, b - 1);
    }
  }

  /** From depth 6 on, 4^d exceeds 3600 and slow-mode is off. */
  lemma {:induction false} RateSecondsDeep(d: nat)
    requires d >= 6
    ensures RateSeconds(d) == 0
  {
    if d > 6 {
      RateSecondsDeep(d - 1);
    } else {
      assert RateSeconds(5) == 3;
    }
  }

  /** The layers no deeper than `d`, in layer order. */
  function Viewable(layers: seq<Layer>, d: nat): (r: seq<Layer>)
    ensures forall x :: x in r <==> x in layers && x.depth <= d
    ensures |r| <= |layers|
  {
    if layers == [] then []
    else (if layers[0].depth <= d then [layers[0]] else []) + Viewable(layers[1..], d)
  }

  /** The overwrite table, the slow-mode table and the `channelsModified` counter. */
  datatype Tables = Tables(overwrites: Overwrites, rateLimits: map<Id, nat>, modified: nat)

  /**
   * The inner `forEach`: grant `role` VIEW on each viewable layer's channel (skipped
   * when the role is missing: the rejected promise is not awaited), set that channel's
   * slow-mode, and count it.
   */
  function GrantViews(t: Tables, role: Option<Role>, vls: seq<Layer>): Tables
    decreases vls
  {
    if vls == [] then t
    else
      var vl := vls[0];
      var ov := if role.Some? then t.overwrites[(vl.channel, RoleOf(role.value.id)) := true] else t.overwrites;
      GrantViews(Tables(ov, t.rateLimits[vl.channel := RateSeconds(vl.depth)], t.modified + 1), role, vls[1..])
  }

  /** The outer loop over a category's layers, over the layers `ls` still to go. */
  function GrantLayers(t: Tables, roles: seq<Role>, layers: seq<Layer>, ls: seq<Layer>): Tables
    decreases ls
  {
    if ls == [] then t
    else
      var l := ls[0];
      GrantLayers(GrantViews(t, FindRole(roles, l.roleName), Viewable(layers, l.depth)), roles, layers, ls[1..])
  }

  /** One category's callback: Steward may view; a feed hides from @everyone and cascades; another category drops its @everyone overwrite. */
  function CategoryStep(t: Tables, steward: Role, cat: Channel, layers: seq<Layer>, roles: seq<Role>): Tables {
    var ov := t.overwrites[(cat.id, RoleOf(steward.id)) := true];
    if IsWorkflow(cat.name) then
      GrantLayers(t.(overwrites := ov[(cat.id, Everyone) := false]), roles, layers, layers)
    else
      Tables(ov - {(cat.id, Everyone)}, t.rateLimits, t.modified + 1)
  }

  /** Each category's callback of the cascade in turn, in the layer map's key order. */
  function CascadeOver(t: Tables, steward: Role, cats: seq<Channel>, m: LayerMap, roles: seq<Role>): Tables
    requires forall c :: c in cats ==> c.id in m
    decreases cats
  {
    if cats == [] then t
    else CascadeOver(CategoryStep(t, steward, cats[0], m[cats[0].id], roles), steward, cats[1..], m, roles)
  }

  /**
   * `setLayerProperties`: throws when the layer map throws, and when there is no role
   * called "Steward" (every category's first awaited write rejects before any write).
   */
  function Cascade(cs: seq<Channel>, roles: seq<Role>, t: Tables): Outcome<Tables> {
    match LayerMapOf(cs)
    case Throws => Throws
    case Returns(m) =>
      match FindRole(roles, "Steward")
      case None => if |CategoryChannels(cs)| == 0 then Returns(t) else Throws
      case Some(steward) =>
        CategoriesAreKeys(cs, m);
        Returns(CascadeOver(t, steward, CategoryChannels(cs), m, roles))
  }

  /**
   * The cascade throws exactly when the layer map throws, or when there is a category
   * to bind and no role named "Steward" (the first awaited overwrite then rejects in every
   * category before anything is written).
   */
  lemma CascadeThrows(cs: seq<Channel>, roles: seq<Role>, t: Tables)
    ensures Cascade(cs, roles, t).Throws? <==>
      LayerMapOf(cs).Throws? || (!HasRoleNamed(roles, "Steward") && exists c :: c in cs && c.kind == Category)
    ensures Cascade(cs, roles, t).Returns? && !HasRoleNamed(roles, "Steward") ==> Cascade(cs, roles, t).value == t
  {
    if |CategoryChannels(cs)| > 0 {
      assert CategoryChannels(cs)[0] in CategoryChannels(cs);
    }
  }

  // ---------------------------------------------------------------------------
  // What the cascade writes

  /** Within these layers a channel always carries the same depth. */
  predicate ChannelsAgree(ls: seq<Layer>) {
    forall a, b :: a in ls && b in ls && a.channel == b.channel ==> a.depth == b.depth
  }

  /** Across the whole layer map a channel always carries the same depth. */
  ghost predicate MapChannelsAgree(m: LayerMap) {
    forall k1, k2, a, b :: k1 in m && k2 in m && a in m[k1] && b in m[k2] && a.channel == b.channel ==> a.depth == b.depth
  }

  predicate DistinctIds(cats: seq<Channel>) {
    forall i, j :: 0 <= i < j < |cats| ==> cats[i].id != cats[j].id
  }

  function ChannelsOf(ls: seq<Layer>): set<Id> {
    set l | l in ls :: l.channel
  }

  /** The overwrites one layer's role receives: VIEW on each viewable channel (none when the role is missing). */
  function RoleKeys(role: Option<Role>, vls: seq<Layer>): set<(Id, Principal)> {
    if role.None? then {} else set vl | vl in vls :: (vl.channel, RoleOf(role.value.id))
  }

  /** The overwrites the layers `ls` of a category with layers `layers` receive. */
  function GrantKeys(roles: seq<Role>, layers: seq<Layer>, ls: seq<Layer>): set<(Id, Principal)>
    decreases ls
  {
    if ls == [] then {}
    else RoleKeys(FindRole(roles, ls[0].roleName), Viewable(layers, ls[0].depth)) + GrantKeys(roles, layers, ls[1..])
  }

  /**
   * The cascade rule: a key is granted exactly when it is (channel of `vl`, role of `l`)
   * for a layer `l` whose role exists and a layer `vl` of the same category no deeper than `l`.
   */
  lemma GrantKeysMembers(roles: seq<Role>, layers: seq<Layer>, ls: seq<Layer>, k: (Id, Principal))
    ensures k in GrantKeys(roles, layers, ls) <==>
      exists l, vl :: l in ls && vl in layers && vl.depth <= l.depth && FindRole(roles, l.roleName).Some? &&
                      k == (vl.channel, RoleOf(FindRole(roles, l.roleName).value.id))
  {
    if k in GrantKeys(roles, layers, ls) {
      GrantKeysSound(roles, layers, ls, k);
    }
    if exists l, vl :: l in ls && vl in layers && vl.depth <= l.depth && FindRole(roles, l.roleName).Some? &&
                       k == (vl.channel, RoleOf(FindRole(roles, l.roleName).value.id)) {
      var l, vl :| l in ls && vl in layers && vl.depth <= l.depth && FindRole(roles, l.roleName).Some? &&
                   k == (vl.channel, RoleOf(FindRole(roles, l.roleName).value.id));
      GrantKeysComplete(roles, layers, ls, l, vl);
    }
  }

  /** Each granted key comes from a layer with a role and a viewable layer no deeper. */
  lemma {:induction false} GrantKeysSound(roles: seq<Role>, layers: seq<Layer>, ls: seq<Layer>, k: (Id, Principal))
    requires k in GrantKeys(roles, layers, ls)
    decreases ls
    ensures exists l, vl :: l in ls && vl in layers && vl.depth <= l.depth && FindRole(roles, l.roleName).Some? &&
                            k == (vl.channel, RoleOf(FindRole(roles, l.roleName).value.id))
  {
    var l0 := ls[0];
    var role := FindRole(roles, l0.roleName);
    if k in RoleKeys(role, Viewable(layers, l0.depth)) {
      var vl :| vl in Viewable(layers, l0.depth) && k == (vl.channel, RoleOf(role.value.id));
      assert l0 in ls;
    } else {
      GrantKeysSound(roles, layers, ls[1..], k);
      var l, vl :| l in ls[1..] && vl in layers && vl.depth <= l.depth && FindRole(roles, l.roleName).Some? &&
                   k == (vl.channel, RoleOf(FindRole(roles, l.roleName).value.id));
      assert l in ls;
    }
  }

  /** A layer with a role grants it on every layer of its category no deeper. */
  lemma {:induction false} GrantKeysComplete(roles: seq<Role>, layers: seq<Layer>, ls: seq<Layer>, l: Layer, vl: Layer)
    requires l in ls && vl in layers && vl.depth <= l.depth && FindRole(roles, l.roleName).Some?
    decreases ls
    ensures (vl.channel, RoleOf(FindRole(roles, l.roleName).value.id)) in GrantKeys(roles, layers, ls)
  {
    if l == ls[0] {
      assert vl in Viewable(layers, l.depth);
    } else {
      GrantKeysComplete(roles, layers, ls[1..], l, vl);
    }
  }

  /** Every granted key names a role, never @everyone. */
  lemma GrantKeysAreRoles(roles: seq<Role>, layers: seq<Layer>, k: (Id, Principal))
    requires k in GrantKeys(roles, layers, layers)
    ensures k.1.RoleOf?
  {
    GrantKeysMembers(roles, layers, layers, k);
  }

  /** The inner loop writes VIEW for `role` on each channel of `vls`, and each channel's slow-mode. */
  lemma {:induction false} GrantViewsEffect(t: Tables, role: Option<Role>, vls: seq<Layer>)
    requires ChannelsAgree(vls)
    decreases vls
    ensures var r := GrantViews(t, role, vls);
      && (forall k :: Get(r.overwrites, k) == if k in RoleKeys(role, vls) then Some(true) else Get(t.overwrites, k))
      && (forall vl :: vl in vls ==> Get(r.rateLimits, vl.channel) == Some(RateSeconds(vl.depth)))
      && (forall ch :: ch !in ChannelsOf(vls) ==> Get(r.rateLimits, ch) == Get(t.rateLimits, ch))
      && r.modified == t.modified + |vls|
  {
    if vls != [] {
      var vl0 := vls[0];
      var ov := if role.Some? then t.overwrites[(vl0.channel, RoleOf(role.value.id)) := true] else t.overwrites;
      var t1 := Tables(ov, t.rateLimits[vl0.channel := RateSeconds(vl0.depth)], t.modified + 1);
      var rest := vls[1..];
      GrantViewsEffect(t1, role, rest);
      var r := GrantViews(t, role, vls);
      assert r == GrantViews(t1, role, rest);
      assert vls == [vl0] + rest;
      forall k ensures Get(r.overwrites, k) == if k in RoleKeys(role, vls) then Some(true) else Get(t.overwrites, k) {
        if role.Some? {
          assert k in RoleKeys(role, vls) <==> k == (vl0.channel, RoleOf(role.value.id)) || k in RoleKeys(role, rest);
        }
      }
      forall vl | vl in vls ensures Get(r.rateLimits, vl.channel) == Some(RateSeconds(vl.depth)) {
        if vl !in rest {
          assert vl == vl0;
          if vl.channel in ChannelsOf(rest) {
            var w :| w in rest && w.channel == vl.channel;
            assert w.depth == vl.depth;
          }
        }
      }
      forall ch | ch !in ChannelsOf(vls) ensures Get(r.rateLimits, ch) == Get(t.rateLimits, ch) {
        assert ch != vl0.channel;
        assert ch !in ChannelsOf(rest);
      }
    }
  }

  /** The sum of the viewable-layer counts over the layers `ls`: the pairs the inner loop counts. */
  function PairCount(layers: seq<Layer>, ls: seq<Layer>): nat
    decreases ls
  {
    if ls == [] then 0 else |Viewable(layers, ls[0].depth)| + PairCount(layers, ls[1..])
  }

  /** Some layer of `ls` is at depth `d` or deeper, so a layer at depth `d` is viewable from it. */
  predicate Reached(ls: seq<Layer>, d: nat) {
    exists l :: l in ls && d <= l.depth
  }

  /** The middle loop: overwrites on the grant keys, slow-mode on every channel some layer of `ls` can view. */
  lemma {:induction false} GrantLayersEffect(t: Tables, roles: seq<Role>, layers: seq<Layer>, ls: seq<Layer>)
    requires ChannelsAgree(layers)
    decreases ls
    ensures var r := GrantLayers(t, roles, layers, ls);
      && (forall k :: Get(r.overwrites, k) == if k in GrantKeys(roles, layers, ls) then Some(true) else Get(t.overwrites, k))
      && (forall vl :: vl in layers ==>
            Get(r.rateLimits, vl.channel) == if Reached(ls, vl.depth) then Some(RateSeconds(vl.depth)) else Get(t.rateLimits, vl.channel))
      && (forall ch :: ch !in ChannelsOf(layers) ==> Get(r.rateLimits, ch) == Get(t.rateLimits, ch))
      && r.modified == t.modified + PairCount(layers, ls)
  {
    if ls != [] {
      var l0 := ls[0];
      var vls := Viewable(layers, l0.depth);
      var t1 := GrantViews(t, FindRole(roles, l0.roleName), vls);
      GrantViewsEffect(t, FindRole(roles, l0.roleName), vls);
      GrantLayersEffect(t1, roles, layers, ls[1..]);
      var r := GrantLayers(t, roles, layers, ls);
      assert r == GrantLayers(t1, roles, layers, ls[1..]);
      forall vl | vl in layers
        ensures Get(r.rateLimits, vl.channel) == if Reached(ls, vl.depth) then Some(RateSeconds(vl.depth)) else Get(t.rateLimits, vl.channel)
      {
        if !Reached(ls[1..], vl.depth) {
          if vl.depth <= l0.depth {
            assert vl in vls;
          } else {
            assert vl.channel !in ChannelsOf(vls);
          }
        } else {
          var l :| l in ls[1..] && vl.depth <= l.depth;
          assert l in ls;
        }
      }
      forall ch | ch !in ChannelsOf(layers) ensures Get(r.rateLimits, ch) == Get(t.rateLimits, ch) {
        assert ch !in ChannelsOf(vls);
      }
    }
  }

  /**
   * What one category's callback leaves on overwrite key `k`: `None` when it does not
   * write `k`, otherwise `Some(v)` where `v` is the final entry (`None`: deleted).
   */
  function CategoryWrite(steward: Role, cat: Channel, layers: seq<Layer>, roles: seq<Role>, k: (Id, Principal)): Option<Option<bool>> {
    if k == (cat.id, Everyone) then Some(if IsWorkflow(cat.name) then Some(false) else None)
    else if k == (cat.id, RoleOf(steward.id)) || (IsWorkflow(cat.name) && k in GrantKeys(roles, layers, layers)) then Some(Some(true))
    else None
  }

  /** One category's callback, key by key. */
  lemma CategoryStepEffect(t: Tables, steward: Role, cat: Channel, layers: seq<Layer>, roles: seq<Role>)
    requires ChannelsAgree(layers)
    ensures var r := CategoryStep(t, steward, cat, layers, roles);
      && (forall k :: Get(r.overwrites, k) == CategoryWrite(steward, cat, layers, roles, k).GetOr(Get(t.overwrites, k)))
      && (IsWorkflow(cat.name) ==> forall vl :: vl in layers ==> Get(r.rateLimits, vl.channel) == Some(RateSeconds(vl.depth)))
      && (forall ch :: ch !in ChannelsOf(layers) ==> Get(r.rateLimits, ch) == Get(t.rateLimits, ch))
      && (!IsWorkflow(cat.name) ==> r.rateLimits == t.rateLimits)
      && r.modified == t.modified + (if IsWorkflow(cat.name) then PairCount(layers, layers) else 1)
  {
    CategoryStepWrites(t, steward, cat, layers, roles);
    CategoryStepRates(t, steward, cat, layers, roles);
  }

  /** The overwrites one category's callback leaves. */
  lemma CategoryStepWrites(t: Tables, steward: Role, cat: Channel, layers: seq<Layer>, roles: seq<Role>)
    requires ChannelsAgree(layers)
    ensures var r := CategoryStep(t, steward, cat, layers, roles);
      forall k :: Get(r.overwrites, k) == CategoryWrite(steward, cat, layers, roles, k).GetOr(Get(t.overwrites, k))
  {
    if IsWorkflow(cat.name) {
      var ov := t.overwrites[(cat.id, RoleOf(steward.id)) := true][(cat.id, Everyone) := false];
      GrantLayersEffect(t.(overwrites := ov), roles, layers, layers);
      forall k | k in GrantKeys(roles, layers, layers) ensures k != (cat.id, Everyone) {
        GrantKeysAreRoles(roles, layers, k);
      }
    }
  }

  /** The slow-modes and the count one category's callback leaves. */
  lemma CategoryStepRates(t: Tables, steward: Role, cat: Channel, layers: seq<Layer>, roles: seq<Role>)
    requires ChannelsAgree(layers)
    ensures var r := CategoryStep(t, steward, cat, layers, roles);
      && (IsWorkflow(cat.name) ==> forall vl :: vl in layers ==> Get(r.rateLimits, vl.channel) == Some(RateSeconds(vl.depth)))
      && (forall ch :: ch !in ChannelsOf(layers) ==> Get(r.rateLimits, ch) == Get(t.rateLimits, ch))
      && (!IsWorkflow(cat.name) ==> r.rateLimits == t.rateLimits)
      && r.modified == t.modified + (if IsWorkflow(cat.name) then PairCount(layers, layers) else 1)
  {
    if IsWorkflow(cat.name) {
      var ov := t.overwrites[(cat.id, RoleOf(steward.id)) := true][(cat.id, Everyone) := false];
      GrantLayersEffect(t.(overwrites := ov), roles, layers, layers);
      forall vl | vl in layers ensures Reached(layers, vl.depth) {
        assert vl in layers && vl.depth <= vl.depth;
      }
    }
  }

  /** The last category of `cats` that writes key `k`, and what it leaves there. */
  function CascadeWrite(steward: Role, cats: seq<Channel>, m: LayerMap, roles: seq<Role>, k: (Id, Principal)): Option<Option<bool>>
    requires forall c :: c in cats ==> c.id in m
    decreases cats
  {
    if cats == [] then None
    else
      var later := CascadeWrite(steward, cats[1..], m, roles, k);
      if later.Some? then later else CategoryWrite(steward, cats[0], m[cats[0].id], roles, k)
  }

  /** Some feed category of `cats` has a layer on channel `ch`, so the cascade sets its slow-mode. */
  ghost predicate RateWritten(cats: seq<Channel>, m: LayerMap, ch: Id)
    requires forall c :: c in cats ==> c.id in m
  {
    exists c :: c in cats && IsWorkflow(c.name) && ch in ChannelsOf(m[c.id])
  }

  /** `channelsModified`: the (layer, viewable layer) pairs of each feed, plus one per other category. */
  function ModifiedCount(cats: seq<Channel>, m: LayerMap): nat
    requires forall c :: c in cats ==> c.id in m
    decreases cats
  {
    if cats == [] then 0
    else (if IsWorkflow(cats[0].name) then PairCount(m[cats[0].id], m[cats[0].id]) else 1) + ModifiedCount(cats[1..], m)
  }

  /** The loop over categories: each key ends as its last writer left it; slow-mode follows depth. */
  lemma CascadeOverEffect(t: Tables, steward: Role, cats: seq<Channel>, m: LayerMap, roles: seq<Role>)
    requires forall c :: c in cats ==> c.id in m
    requires MapChannelsAgree(m)
    ensures var r := CascadeOver(t, steward, cats, m, roles);
      && (forall k :: Get(r.overwrites, k) == CascadeWrite(steward, cats, m, roles, k).GetOr(Get(t.overwrites, k)))
      && (forall c, vl :: c in cats && IsWorkflow(c.name) && vl in m[c.id] ==> Get(r.rateLimits, vl.channel) == Some(RateSeconds(vl.depth)))
      && (forall ch :: !RateWritten(cats, m, ch) ==> Get(r.rateLimits, ch) == Get(t.rateLimits, ch))
      && r.modified == t.modified + ModifiedCount(cats, m)
  {
    CascadeOverWrites(t, steward, cats, m, roles);
    CascadeOverRates(t, steward, cats, m, roles);
  }

  /** A channel that also lies under category `k2` has a layer there at the same depth. */
  lemma LayerOnChannel(m: LayerMap, k1: Id, k2: Id, vl: Layer) returns (w: Layer)
    requires MapChannelsAgree(m) && k1 in m && k2 in m && vl in m[k1] && vl.channel in ChannelsOf(m[k2])
    ensures w in m[k2] && w.channel == vl.channel && w.depth == vl.depth
  {
    w :| w in m[k2] && w.channel == vl.channel;
  }

  /** The overwrites and the count after the loop over categories. */
  lemma {:induction false} CascadeOverWrites(t: Tables, steward: Role, cats: seq<Channel>, m: LayerMap, roles: seq<Role>)
    requires forall c :: c in cats ==> c.id in m
    requires MapChannelsAgree(m)
    decreases cats
    ensures var r := CascadeOver(t, steward, cats, m, roles);
      && (forall k :: Get(r.overwrites, k) == CascadeWrite(steward, cats, m, roles, k).GetOr(Get(t.overwrites, k)))
      && r.modified == t.modified + ModifiedCount(cats, m)
  {
    if cats != [] {
      var c0 := cats[0];
      var layers := m[c0.id];
      assert ChannelsAgree(layers);
      var t1 := CategoryStep(t, steward, c0, layers, roles);
      CategoryStepWrites(t, steward, c0, layers, roles);
      CategoryStepRates(t, steward, c0, layers, roles);
      CascadeOverWrites(t1, steward, cats[1..], m, roles);
    }
  }

  /** The slow-modes after the loop over categories. */
  lemma {:induction false} CascadeOverRates(t: Tables, steward: Role, cats: seq<Channel>, m: LayerMap, roles: seq<Role>)
    requires forall c :: c in cats ==> c.id in m
    requires MapChannelsAgree(m)
    decreases cats
    ensures var r := CascadeOver(t, steward, cats, m, roles);
      && (forall c, vl :: c in cats && IsWorkflow(c.name) && vl in m[c.id] ==> Get(r.rateLimits, vl.channel) == Some(RateSeconds(vl.depth)))
      && (forall ch :: !RateWritten(cats, m, ch) ==> Get(r.rateLimits, ch) == Get(t.rateLimits, ch))
  {
    if cats != [] {
      var c0 := cats[0];
      var rest := cats[1..];
      var layers := m[c0.id];
      assert ChannelsAgree(layers);
      var t1 := CategoryStep(t, steward, c0, layers, roles);
      CategoryStepRates(t, steward, c0, layers, roles);
      CascadeOverRates(t1, steward, rest, m, roles);
      var r := CascadeOver(t, steward, cats, m, roles);
      assert r == CascadeOver(t1, steward, rest, m, roles);
      forall c, vl | c in cats && IsWorkflow(c.name) && vl in m[c.id]
        ensures Get(r.rateLimits, vl.channel) == Some(RateSeconds(vl.depth))
      {
        if c !in rest {
          assert c == c0;
          if RateWritten(rest, m, vl.channel) {
            var c' :| c' in rest && IsWorkflow(c'.name) && vl.channel in ChannelsOf(m[c'.id]);
            var w := LayerOnChannel(m, c.id, c'.id, vl);
          }
        }
      }
      forall ch | !RateWritten(cats, m, ch) ensures Get(r.rateLimits, ch) == Get(t.rateLimits, ch) {
        if IsWorkflow(c0.name) {
          assert ch !in ChannelsOf(layers);
        }
      }
    }
  }

  /** When some category writes `k`, the last writer is one of them. */
  lemma {:induction false} CascadeWriteFrom(steward: Role, cats: seq<Channel>, m: LayerMap, roles: seq<Role>, k: (Id, Principal))
    requires forall c :: c in cats ==> c.id in m
    decreases cats
    ensures CascadeWrite(steward, cats, m, roles, k).Some? <==>
      exists c :: c in cats && CategoryWrite(steward, c, m[c.id], roles, k).Some?
    ensures CascadeWrite(steward, cats, m, roles, k).Some? ==>
      exists c :: c in cats && CategoryWrite(steward, c, m[c.id], roles, k) == CascadeWrite(steward, cats, m, roles, k)
  {
    if cats != [] {
      CascadeWriteFrom(steward, cats[1..], m, roles, k);
      if exists c :: c in cats[1..] && CategoryWrite(steward, c, m[c.id], roles, k).Some? {
        var c :| c in cats[1..] && CategoryWrite(steward, c, m[c.id], roles, k).Some?;
        assert c in cats;
      }
      if CascadeWrite(steward, cats[1..], m, roles, k).Some? {
        var c :| c in cats[1..] && CategoryWrite(steward, c, m[c.id], roles, k) == CascadeWrite(steward, cats[1..], m, roles, k);
        assert c in cats;
      }
      if exists c :: c in cats && CategoryWrite(steward, c, m[c.id], roles, k).Some? {
        var c :| c in cats && CategoryWrite(steward, c, m[c.id], roles, k).Some?;
        if c != cats[0] {
          assert c in cats[1..];
        }
      }
    }
  }

  /** A category writes @everyone only on itself, and every other key it writes it allows. */
  lemma WrittenValue(steward: Role, cat: Channel, layers: seq<Layer>, roles: seq<Role>, k: (Id, Principal))
    requires CategoryWrite(steward, cat, layers, roles, k).Some?
    ensures k.1 == Everyone ==> k == (cat.id, Everyone)
    ensures k.1 != Everyone ==> CategoryWrite(steward, cat, layers, roles, k) == Some(Some(true))
  {
    if k in GrantKeys(roles, layers, layers) {
      GrantKeysAreRoles(roles, layers, k);
    }
  }

  /** With distinct category ids every writer of a key agrees, so the last writer's value is any writer's value. */
  lemma {:induction false} CascadeWriteIs(steward: Role, cats: seq<Channel>, m: LayerMap, roles: seq<Role>, k: (Id, Principal), c: Channel)
    requires forall c :: c in cats ==> c.id in m
    requires DistinctIds(cats) && c in cats && CategoryWrite(steward, c, m[c.id], roles, k).Some?
    decreases cats
    ensures CascadeWrite(steward, cats, m, roles, k) == CategoryWrite(steward, c, m[c.id], roles, k)
  {
    var rest := cats[1..];
    assert DistinctIds(rest) by {
      forall i, j | 0 <= i < j < |rest| ensures rest[i].id != rest[j].id {
        assert rest[i] == cats[i + 1] && rest[j] == cats[j + 1];
      }
    }
    if c in rest {
      CascadeWriteIs(steward, rest, m, roles, k, c);
    } else {
      assert c == cats[0];
      CascadeWriteFrom(steward, rest, m, roles, k);
      if CascadeWrite(steward, rest, m, roles, k).Some? {
        var c' :| c' in rest && CategoryWrite(steward, c', m[c'.id], roles, k) == CascadeWrite(steward, rest, m, roles, k);
        var j :| 0 <= j < |rest| && rest[j] == c';
        assert cats[j + 1] == c';
        WrittenValue(steward, c, m[c.id], roles, k);
        WrittenValue(steward, c', m[c'.id], roles, k);
      }
    }
  }

  // ---------------------------------------------------------------------------
  // setLayerProperties as a whole

  /** Discord's distinct channel ids make the categories' ids distinct. */
  lemma {:induction false} CategoryChannelsDistinct(cs: seq<Channel>)
    requires UniqueIds(cs)
    ensures DistinctIds(CategoryChannels(cs))
  {
    if cs != [] {
      var tail := cs[1..];
      assert UniqueIds(tail) by {
        forall i, j | 0 <= i < j < |tail| ensures tail[i].id != tail[j].id {
          assert tail[i] == cs[i + 1] && tail[j] == cs[j + 1];
        }
      }
      CategoryChannelsDistinct(tail);
      var rest := CategoryChannels(tail);
      forall c | c in rest ensures c.id != cs[0].id {
        var j :| 0 <= j < |tail| && tail[j] == c;
        assert cs[j + 1] == c;
      }
      if cs[0].kind == Category {
        DistinctCons(cs[0], rest);
        assert CategoryChannels(cs) == [cs[0]] + rest;
      } else {
        assert CategoryChannels(cs) == rest;
      }
    }
  }

  lemma DistinctCons(x: Channel, rest: seq<Channel>)
    requires DistinctIds(rest) && forall c :: c in rest ==> c.id != x.id
    ensures DistinctIds([x] + rest)
  {
    var all := [x] + rest;
    forall i, j | 0 <= i < j < |all| ensures all[i].id != all[j].id {
      assert all[j] == rest[j - 1];
      if i > 0 {
        assert all[i] == rest[i - 1];
      } else {
        assert all[j] in rest;
      }
    }
  }

  lemma MapChannelsAgreeOf(cs: seq<Channel>, m: LayerMap)
    requires UniqueIds(cs) && LayerMapOf(cs) == Returns(m)
    ensures MapChannelsAgree(m)
  {
    forall k1, k2, a, b | k1 in m && k2 in m && a in m[k1] && b in m[k2] && a.channel == b.channel
      ensures a.depth == b.depth
    {
      LayerChannelDetermines(cs, m, k1, k2, a, b);
    }
  }

  /**
   * `setLayerProperties` as the source promises it: every category lets Steward view it;
   * a feed category denies @everyone and grants each layer's role VIEW on the layers of
   * that category no deeper than that layer (`GrantKeysMembers`); any other category loses
   * its @everyone overwrite; no other overwrite changes; every feed layer's channel gets
   * the slow-mode of its depth and no other channel's slow-mode changes; the counter
   * grows by the (layer, viewable layer) pairs of each feed plus one per other category.
   */
  lemma CascadeEffect(cs: seq<Channel>, roles: seq<Role>, t: Tables, m: LayerMap, steward: Role)
    requires UniqueIds(cs) && LayerMapOf(cs) == Returns(m) && FindRole(roles, "Steward") == Some(steward)
    ensures Cascade(cs, roles, t).Returns?
    ensures var r := Cascade(cs, roles, t).value;
      && (forall c :: c in cs && c.kind == Category ==> Get(r.overwrites, (c.id, RoleOf(steward.id))) == Some(true))
      && (forall c :: c in cs && c.kind == Category && IsWorkflow(c.name) ==> Get(r.overwrites, (c.id, Everyone)) == Some(false))
      && (forall c :: c in cs && c.kind == Category && !IsWorkflow(c.name) ==> (c.id, Everyone) !in r.overwrites)
      && (forall c, k :: c in cs && c.kind == Category && IsWorkflow(c.name) && k in GrantKeys(roles, m[c.id], m[c.id]) ==>
            Get(r.overwrites, k) == Some(true))
      && (forall k :: (forall c :: c in cs && c.kind == Category ==> CategoryWrite(steward, c, m[c.id], roles, k).None?) ==>
            Get(r.overwrites, k) == Get(t.overwrites, k))
      && (forall c, l :: c in cs && c.kind == Category && IsWorkflow(c.name) && l in m[c.id] ==>
            Get(r.rateLimits, l.channel) == Some(RateSeconds(l.depth)))
      && (forall ch :: (forall c :: c in cs && c.kind == Category && IsWorkflow(c.name) ==> ch !in ChannelsOf(m[c.id])) ==>
            Get(r.rateLimits, ch) == Get(t.rateLimits, ch))
      && r.modified == t.modified + ModifiedCount(CategoryChannels(cs), m)
  {
    var cats := CategoryChannels(cs);
    CategoryChannelsDistinct(cs);
    MapChannelsAgreeOf(cs, m);
    assert Cascade(cs, roles, t) == Returns(CascadeOver(t, steward, cats, m, roles));
    var r := CascadeOver(t, steward, cats, m, roles);
    CascadeBinds(t, steward, cats, m, roles);
    CascadeGrants(t, steward, cats, m, roles);
    CascadeOverEffect(t, steward, cats, m, roles);
    forall k | (forall c :: c in cs && c.kind == Category ==> CategoryWrite(steward, c, m[c.id], roles, k).None?)
      ensures Get(r.overwrites, k) == Get(t.overwrites, k)
    {
      assert forall c :: c in cats ==> CategoryWrite(steward, c, m[c.id], roles, k).None?;
      CascadeKeeps(t, steward, cats, m, roles, k);
    }
    forall ch | (forall c :: c in cs && c.kind == Category && IsWorkflow(c.name) ==> ch !in ChannelsOf(m[c.id]))
      ensures Get(r.rateLimits, ch) == Get(t.rateLimits, ch)
    {
      assert !RateWritten(cats, m, ch);
    }
  }

  /** The per-category overwrites the cascade ends with: Steward allowed, everyone denied or cleared. */
  lemma CascadeBinds(t: Tables, steward: Role, cats: seq<Channel>, m: LayerMap, roles: seq<Role>)
    requires forall c :: c in cats ==> c.id in m
    requires MapChannelsAgree(m) && DistinctIds(cats)
    ensures var r := CascadeOver(t, steward, cats, m, roles);
      && (forall c :: c in cats ==> Get(r.overwrites, (c.id, RoleOf(steward.id))) == Some(true))
      && (forall c :: c in cats && IsWorkflow(c.name) ==> Get(r.overwrites, (c.id, Everyone)) == Some(false))
      && (forall c :: c in cats && !IsWorkflow(c.name) ==> (c.id, Everyone) !in r.overwrites)
  {
    var r := CascadeOver(t, steward, cats, m, roles);
    CascadeOverEffect(t, steward, cats, m, roles);
    forall c | c in cats ensures Get(r.overwrites, (c.id, RoleOf(steward.id))) == Some(true) {
      CascadeWriteIs(steward, cats, m, roles, (c.id, RoleOf(steward.id)), c);
    }
    forall c | c in cats && IsWorkflow(c.name) ensures Get(r.overwrites, (c.id, Everyone)) == Some(false) {
      CascadeWriteIs(steward, cats, m, roles, (c.id, Everyone), c);
    }
    forall c | c in cats && !IsWorkflow(c.name) ensures (c.id, Everyone) !in r.overwrites {
      CascadeWriteIs(steward, cats, m, roles, (c.id, Everyone), c);
      assert Get(r.overwrites, (c.id, Everyone)) == None;
    }
  }

  /** The view grants the cascade ends with. */
  lemma CascadeGrants(t: Tables, steward: Role, cats: seq<Channel>, m: LayerMap, roles: seq<Role>)
    requires forall c :: c in cats ==> c.id in m
    requires MapChannelsAgree(m) && DistinctIds(cats)
    ensures var r := CascadeOver(t, steward, cats, m, roles);
      forall c, k :: c in cats && IsWorkflow(c.name) && k in GrantKeys(roles, m[c.id], m[c.id]) ==>
        Get(r.overwrites, k) == Some(true)
  {
    var r := CascadeOver(t, steward, cats, m, roles);
    CascadeOverEffect(t, steward, cats, m, roles);
    forall c, k | c in cats && IsWorkflow(c.name) && k in GrantKeys(roles, m[c.id], m[c.id])
      ensures Get(r.overwrites, k) == Some(true)
    {
      GrantKeysAreRoles(roles, m[c.id], k);
      CascadeWriteIs(steward, cats, m, roles, k, c);
    }
  }

  /** Every key no category writes keeps its overwrite. */
  lemma CascadeKeeps(t: Tables, steward: Role, cats: seq<Channel>, m: LayerMap, roles: seq<Role>, k: (Id, Principal))
    requires forall c :: c in cats ==> c.id in m
    requires MapChannelsAgree(m)
    requires forall c :: c in cats ==> CategoryWrite(steward, c, m[c.id], roles, k).None?
    ensures Get(CascadeOver(t, steward, cats, m, roles).overwrites, k) == Get(t.overwrites, k)
  {
    CascadeOverEffect(t, steward, cats, m, roles);
    CascadeWriteFrom(steward, cats, m, roles, k);
  }



  /** Depths strictly increase along the list: one channel per depth. */
  predicate StrictlyDeeper(ls: seq<Layer>) {
    forall i, j :: 0 <= i < j < |ls| ==> ls[i].depth < ls[j].depth
  }

  /** With one channel per depth, the layer at index `i` sees exactly the first `i + 1` layers. */
  lemma {:induction false} ViewableLength(layers: seq<Layer>, d: nat, k: nat)
    requires k <= |layers|
    requires forall j :: 0 <= j < k ==> layers[j].depth <= d
    requires forall j :: k <= j < |layers| ==> layers[j].depth > d
    ensures |Viewable(layers, d)| == k
  {
    if layers != [] {
      if k == 0 {
        ViewableLength(layers[1..], d, 0);
      } else {
        ViewableLength(layers[1..], d, k - 1);
      }
    }
  }

  lemma {:induction false} PairCountSuffix(layers: seq<Layer>, j: nat)
    requires StrictlyDeeper(layers) && j <= |layers|
    decreases |layers| - j
    ensures 2 * PairCount(layers, layers[j..]) == |layers| * (|layers| + 1) - j * (j + 1)
  {
    if j < |layers| {
      PairCountSuffix(layers, j + 1);
      ViewableLength(layers, layers[j].depth, j + 1);
      assert layers[j..][1..] == layers[j + 1..];
      assert (j + 1) * (j + 2) == j * (j + 1) + 2 * (j + 1);
    }
  }

  /** With one channel per depth, a feed of n layers counts n(n+1)/2 pairs. */
  lemma PairCountStrict(layers: seq<Layer>)
    requires StrictlyDeeper(layers)
    ensures 2 * PairCount(layers, layers) == |layers| * (|layers| + 1)
  {
    PairCountSuffix(layers, 0);
    assert layers[0..] == layers;
  }

  // ---------------------------------------------------------------------------
  // fixRolesAndPermissions

  /** `undefined` (nothing to do and not forced) or the list of roles it made. */
  datatype FixResult = Skipped | Made(created: seq<RoleSpec>)

  /** The result of one reconciler pass and the guild state it leaves (also when it throws). */
  datatype Pass = Pass(result: Outcome<FixResult>, state: GuildState)

  /** The layers whose role name is not among `names`, as specs coloured by feed name. */
  function RolesToMake(names: seq<string>, ls: seq<Layer>, colorOf: string -> Color): (r: seq<RoleSpec>)
    ensures |r| <= |ls|
  {
    if ls == [] then []
    else
      (if ls[0].roleName in names then [] else [RoleSpec(ls[0].roleName, colorOf(ls[0].feedName.GetOr("")))])
      + RolesToMake(names, ls[1..], colorOf)
  }

  /**
   * The roles to make are exactly the layer roles whose name is not in `names`, each
   * coloured by `colorOf` of its feed name alone.
   */
  lemma {:induction false} RolesToMakeMembers(names: seq<string>, ls: seq<Layer>, colorOf: string -> Color, x: RoleSpec)
    ensures x in RolesToMake(names, ls, colorOf) <==>
      exists l :: l in ls && l.roleName !in names && x == RoleSpec(l.roleName, colorOf(l.feedName.GetOr("")))
  {
    if ls != [] {
      RolesToMakeMembers(names, ls[1..], colorOf, x);
      if exists l :: l in ls && l.roleName !in names && x == RoleSpec(l.roleName, colorOf(l.feedName.GetOr(""))) {
        var l :| l in ls && l.roleName !in names && x == RoleSpec(l.roleName, colorOf(l.feedName.GetOr("")));
        if l != ls[0] {
          assert l in ls[1..];
        }
      }
      if x in RolesToMake(names, ls[1..], colorOf) {
        var l :| l in ls[1..] && l.roleName !in names && x == RoleSpec(l.roleName, colorOf(l.feedName.GetOr("")));
        assert l in ls;
      }
    }
  }

  /** With no name to skip, every layer gets a role to make, in layer order. */
  lemma {:induction false} RolesToMakeAll(names: seq<string>, ls: seq<Layer>, colorOf: string -> Color)
    requires forall l :: l in ls ==> l.roleName !in names
    ensures |RolesToMake(names, ls, colorOf)| == |ls|
    ensures forall i :: 0 <= i < |ls| ==>
      RolesToMake(names, ls, colorOf)[i] == RoleSpec(ls[i].roleName, colorOf(ls[i].feedName.GetOr("")))
  {
    if ls != [] {
      RolesToMakeAll(names, ls[1..], colorOf);
    }
  }

  /**
   * `fixRolesAndPermissions(g, force)`: snapshot the roles, nuke the pace roles, build the
   * layer map, make the layer roles missing from the snapshot (return early when there are
   * none and the pass is not forced), grant every P0 role to every member, then cascade.
   */
  function Fix(cs: seq<Channel>, s: GuildState, force: bool, colorOf: string -> Color): Pass {
    FixAfterNuke(cs, s.roles, DeleteRoles(s, PaceRoles(s.roles)), force, colorOf)
  }

  /** The pass after the nuking, diffing against the pre-deletion role list `snapshot`. */
  function FixAfterNuke(cs: seq<Channel>, snapshot: seq<Role>, s1: GuildState, force: bool, colorOf: string -> Color): Pass {
    match GuildLayers(cs)
    case Throws => Pass(Throws, s1)
    case Returns(ls) =>
      var toMake := RolesToMake(RoleNames(snapshot), ls, colorOf);
      if |toMake| == 0 && !force then Pass(Returns(Skipped), s1)
      else MakeAndBindPass(cs, s1, toMake)
  }

  /** Create the roles `toMake`, grant every P0 role to everyone, then run the cascade. */
  function MakeAndBindPass(cs: seq<Channel>, s1: GuildState, toMake: seq<RoleSpec>): Pass {
    var s2 := CreateRoles(s1, toMake);
    var s3 := GrantAll(s2, RoleIds(P0Roles(s2.roles)));
    match Cascade(cs, s3.roles, Tables(s3.overwrites, s3.rateLimits, 0))
    case Throws => Pass(Throws, s3)
    case Returns(t) => Pass(Returns(Made(toMake)), s3.(overwrites := t.overwrites, rateLimits := t.rateLimits))
  }

  /** Every layer's role name has a nonzero depth, so the reconciler nukes it. */
  lemma GuildLayerNonzero(cs: seq<Channel>, l: Layer)
    requires GuildLayers(cs).Returns? && l in GuildLayers(cs).value
    ensures HasNonzeroDepth(l.roleName)
  {
    var m := LayerMapOf(cs).value;
    CategoriesAreKeys(cs, m);
    AllLayersMembers(m, CategoryChannels(cs), l);
    var c :| c in CategoryChannels(cs) && l in m[c.id];
    LayerShape(cs, m, c.id, l);
  }

  /**
   * The pass keeps every role with no nonzero depth (P0 roles and roles that are not
   * pace roles), drops every role with a nonzero depth, and only adds roles with fresh ids.
   */
  lemma FixRoles(cs: seq<Channel>, s: GuildState, force: bool, colorOf: string -> Color)
    requires WellFormed(s)
    ensures var after := Fix(cs, s, force, colorOf).state;
      && (forall x :: x in s.roles && !HasNonzeroDepth(x.name) ==> x in after.roles)
      && (forall x :: x in s.roles && HasNonzeroDepth(x.name) ==> x !in after.roles)
      && (forall x :: x in after.roles && x !in s.roles ==> x.id >= s.nextId)
  {
    var s1 := DeleteRoles(s, PaceRoles(s.roles));
    NukeKeepsExactly(s);
    DeleteRolesCounts(s, PaceRoles(s.roles));
    var after := Fix(cs, s, force, colorOf).state;
    if GuildLayers(cs).Returns? {
      var toMake := RolesToMake(RoleNames(s.roles), GuildLayers(cs).value, colorOf);
      if !(|toMake| == 0 && !force) {
        CreateRolesEffect(s1, toMake);
        assert after.roles == s1.roles + NewRoles(s.nextId, toMake);
        NewRolesAbove(s.nextId, toMake);
        forall x | x in s.roles && HasNonzeroDepth(x.name) ensures x !in after.roles {
          var i :| 0 <= i < |s.roles| && s.roles[i] == x;
        }
      }
    }
  }

  /**
   * The role list a pass leaves: the survivors of the nuking, followed by the roles it
   * made when it got past the layer map and the early return.
   */
  lemma FixRolesShape(cs: seq<Channel>, s: GuildState, force: bool, colorOf: string -> Color)
    ensures var s1 := DeleteRoles(s, PaceRoles(s.roles));
      Fix(cs, s, force, colorOf).state.roles ==
        if GuildLayers(cs).Returns? &&
           !(|RolesToMake(RoleNames(s.roles), GuildLayers(cs).value, colorOf)| == 0 && !force)
        then s1.roles + NewRoles(s.nextId, RolesToMake(RoleNames(s.roles), GuildLayers(cs).value, colorOf))
        else s1.roles
  {
    var s1 := DeleteRoles(s, PaceRoles(s.roles));
    DeleteRolesCounts(s, PaceRoles(s.roles));
    if GuildLayers(cs).Returns? {
      CreateRolesEffect(s1, RolesToMake(RoleNames(s.roles), GuildLayers(cs).value, colorOf));
    }
  }

  /** After the nuking no role with a nonzero-depth name is left. */
  lemma NukedNameGone(s: GuildState, name: string)
    requires HasNonzeroDepth(name)
    ensures !HasRoleNamed(DeleteRoles(s, PaceRoles(s.roles)).roles, name)
  {
    DeleteRolesKeeps(s, PaceRoles(s.roles));
  }

  /**
   * Reconciliation deletes before it diffs: a layer role that exists before a pass is
   * nuked and, being in the pre-deletion snapshot, not remade; a layer role that is missing
   * is made. So each pass flips whether every layer role exists.
   */
  lemma FixFlipsLayerRoles(cs: seq<Channel>, s: GuildState, force: bool, colorOf: string -> Color, l: Layer)
    requires GuildLayers(cs).Returns? && l in GuildLayers(cs).value
    ensures HasRoleNamed(Fix(cs, s, force, colorOf).state.roles, l.roleName) <==> !HasRoleNamed(s.roles, l.roleName)
  {
    GuildLayerNonzero(cs, l);
    FixRolesShape(cs, s, force, colorOf);
    FlipCore(s, GuildLayers(cs).value, force, colorOf, l, Fix(cs, s, force, colorOf).state.roles);
  }

  /** The role-list reasoning behind `FixFlipsLayerRoles`, for a given list of layers. */
  lemma FlipCore(s: GuildState, ls: seq<Layer>, force: bool, colorOf: string -> Color, l: Layer, after: seq<Role>)
    requires l in ls && HasNonzeroDepth(l.roleName)
    requires var toMake := RolesToMake(RoleNames(s.roles), ls, colorOf);
      var s1 := DeleteRoles(s, PaceRoles(s.roles));
      after == if !(|toMake| == 0 && !force) then s1.roles + NewRoles(s.nextId, toMake) else s1.roles
    ensures HasRoleNamed(after, l.roleName) <==> !HasRoleNamed(s.roles, l.roleName)
  {
    NukedNameGone(s, l.roleName);
    if HasRoleNamed(s.roles, l.roleName) {
      FlipPresent(s, ls, force, colorOf, l, after);
    } else {
      FlipAbsent(s, ls, force, colorOf, l, after);
    }
  }

  /** A layer role in the snapshot is not remade. */
  lemma FlipPresent(s: GuildState, ls: seq<Layer>, force: bool, colorOf: string -> Color, l: Layer, after: seq<Role>)
    requires HasRoleNamed(s.roles, l.roleName)
    requires !HasRoleNamed(DeleteRoles(s, PaceRoles(s.roles)).roles, l.roleName)
    requires var toMake := RolesToMake(RoleNames(s.roles), ls, colorOf);
      var s1 := DeleteRoles(s, PaceRoles(s.roles));
      after == if !(|toMake| == 0 && !force) then s1.roles + NewRoles(s.nextId, toMake) else s1.roles
    ensures !HasRoleNamed(after, l.roleName)
  {
    var names := RoleNames(s.roles);
    var s1 := DeleteRoles(s, PaceRoles(s.roles));
    var toMake := RolesToMake(names, ls, colorOf);
    var i :| 0 <= i < |s.roles| && s.roles[i].name == l.roleName;
    assert names[i] == l.roleName;
    forall k | 0 <= k < |toMake| ensures toMake[k].name != l.roleName {
      RolesToMakeMembers(names, ls, colorOf, toMake[k]);
    }
    NewRolesNamed(s.nextId, toMake, l.roleName);
    NotNamedAppend(s1.roles, NewRoles(s.nextId, toMake), l.roleName);
  }

  /** Fresh roles made from specs that avoid a name do not carry it. */
  lemma NewRolesNamed(first: nat, specs: seq<RoleSpec>, name: string)
    requires forall k :: 0 <= k < |specs| ==> specs[k].name != name
    ensures !HasRoleNamed(NewRoles(first, specs), name)
  {
    var made := NewRoles(first, specs);
    forall k | 0 <= k < |made| ensures made[k].name != name {
      NewRolesAt(first, specs, k);
    }
  }

  lemma NotNamedAppend(a: seq<Role>, b: seq<Role>, name: string)
    requires !HasRoleNamed(a, name) && !HasRoleNamed(b, name)
    ensures !HasRoleNamed(a + b, name)
  {
    forall j | 0 <= j < |a + b| ensures (a + b)[j].name != name {
      if j < |a| {
        assert (a + b)[j] == a[j];
      } else {
        assert (a + b)[j] == b[j - |a|];
      }
    }
  }

  /** A layer role missing from the snapshot is made, and so forces past the early return. */
  lemma FlipAbsent(s: GuildState, ls: seq<Layer>, force: bool, colorOf: string -> Color, l: Layer, after: seq<Role>)
    requires l in ls && !HasRoleNamed(s.roles, l.roleName)
    requires var toMake := RolesToMake(RoleNames(s.roles), ls, colorOf);
      var s1 := DeleteRoles(s, PaceRoles(s.roles));
      after == if !(|toMake| == 0 && !force) then s1.roles + NewRoles(s.nextId, toMake) else s1.roles
    ensures HasRoleNamed(after, l.roleName)
  {
    var names := RoleNames(s.roles);
    var s1 := DeleteRoles(s, PaceRoles(s.roles));
    var toMake := RolesToMake(names, ls, colorOf);
    var x := RoleSpec(l.roleName, colorOf(l.feedName.GetOr("")));
    assert l.roleName !in names;
    RolesToMakeMembers(names, ls, colorOf, x);
    MadeNamed(s.nextId, toMake, x);
    NamedAppendRight(s1.roles, NewRoles(s.nextId, toMake), l.roleName);
  }

  /** Every spec's name is the name of one of the roles made from it. */
  lemma MadeNamed(first: nat, specs: seq<RoleSpec>, x: RoleSpec)
    requires x in specs
    ensures HasRoleNamed(NewRoles(first, specs), x.name)
  {
    var k :| 0 <= k < |specs| && specs[k] == x;
    NewRolesAt(first, specs, k);
  }

  /** A role named `name` at the back of a list is one of the whole list. */
  lemma NamedAppendRight(a: seq<Role>, b: seq<Role>, name: string)
    requires HasRoleNamed(b, name)
    ensures HasRoleNamed(a + b, name)
  {
    var j :| 0 <= j < |b| && b[j].name == name;
    assert (a + b)[|a| + j] == b[j];
  }

  /** Hence no pass is idempotent: a second pass undoes the first one's layer roles. */
  lemma FixTwiceRestores(cs: seq<Channel>, s: GuildState, force: bool, colorOf: string -> Color, l: Layer)
    requires GuildLayers(cs).Returns? && l in GuildLayers(cs).value
    ensures var once := Fix(cs, s, force, colorOf).state;
      var twice := Fix(cs, once, force, colorOf).state;
      && HasRoleNamed(once.roles, l.roleName) != HasRoleNamed(s.roles, l.roleName)
      && HasRoleNamed(twice.roles, l.roleName) == HasRoleNamed(s.roles, l.roleName)
  {
    FixFlipsLayerRoles(cs, s, force, colorOf, l);
    FixFlipsLayerRoles(cs, Fix(cs, s, force, colorOf).state, force, colorOf, l);
  }

  /**
   * The early return: a pass returns `undefined` exactly when the layer map builds, no
   * layer role is missing from the snapshot and the pass is not forced; it then leaves
   * the guild as the nuking left it, without creating, granting or cascading.
   */
  lemma FixSkips(cs: seq<Channel>, s: GuildState, force: bool, colorOf: string -> Color)
    ensures Fix(cs, s, force, colorOf).result == Returns(Skipped) <==>
      GuildLayers(cs).Returns? && !force &&
      forall l :: l in GuildLayers(cs).value ==> l.roleName in RoleNames(s.roles)
    ensures Fix(cs, s, force, colorOf).result == Returns(Skipped) ==>
      Fix(cs, s, force, colorOf).state == DeleteRoles(s, PaceRoles(s.roles))
  {
    if GuildLayers(cs).Returns? {
      var ls := GuildLayers(cs).value;
      var toMake := RolesToMake(RoleNames(s.roles), ls, colorOf);
      if exists l :: l in ls && l.roleName !in RoleNames(s.roles) {
        var l :| l in ls && l.roleName !in RoleNames(s.roles);
        RolesToMakeMembers(RoleNames(s.roles), ls, colorOf, RoleSpec(l.roleName, colorOf(l.feedName.GetOr(""))));
      }
      if |toMake| > 0 {
        RolesToMakeMembers(RoleNames(s.roles), ls, colorOf, toMake[0]);
      }
    }
  }

  /**
   * When a pass gets past the early return and the cascade: it returns the roles it made,
   * appends them with fresh ids in that order, and every member, bots included, holds
   * every P0 role.
   */
  lemma FixMade(cs: seq<Channel>, s: GuildState, force: bool, colorOf: string -> Color)
    requires Fix(cs, s, force, colorOf).result.Returns? && Fix(cs, s, force, colorOf).result.value.Made?
    ensures var p := Fix(cs, s, force, colorOf);
      var s1 := DeleteRoles(s, PaceRoles(s.roles));
      && p.result.value.created == RolesToMake(RoleNames(s.roles), GuildLayers(cs).value, colorOf)
      && p.state.roles == s1.roles + NewRoles(s.nextId, p.result.value.created)
      && p.state.nextId == s.nextId + |p.result.value.created|
      && |p.state.members| == |s.members|
      && (forall i, x :: 0 <= i < |p.state.members| && x in p.state.roles && RoleDepth(x.name) == Some(0) ==>
            x.id in p.state.members[i].roles)
  {
    var s1 := DeleteRoles(s, PaceRoles(s.roles));
    DeleteRolesCounts(s, PaceRoles(s.roles));
    var toMake := RolesToMake(RoleNames(s.roles), GuildLayers(cs).value, colorOf);
    CreateRolesEffect(s1, toMake);
    var s2 := CreateRoles(s1, toMake);
    var s3 := GrantAll(s2, RoleIds(P0Roles(s2.roles)));
    var p := Fix(cs, s, force, colorOf);
    assert p.state.roles == s3.roles && p.state.members == s3.members && p.state.nextId == s3.nextId;
    forall i, x | 0 <= i < |s3.members| && x in s3.roles && RoleDepth(x.name) == Some(0)
      ensures x.id in s3.members[i].roles
    {
      assert x in P0Roles(s2.roles);
    }
  }

  /** Deleting roles keeps the id counter and the number of members. */
  lemma DeleteRolesCounts(s: GuildState, rs: seq<Role>)
    ensures DeleteRoles(s, rs).nextId == s.nextId
    ensures |DeleteRoles(s, rs).members| == |s.members|
  {
    DeleteRolesEffect(s, rs);
  }

  /**
   * `/steward reset`: nuking the pace roles first leaves a snapshot without any layer role,
   * so the forced pass that follows recreates every layer role, one per layer.
   */
  lemma ResetRecreatesAll(cs: seq<Channel>, s: GuildState, colorOf: string -> Color)
    requires GuildLayers(cs).Returns?
    ensures var p := Fix(cs, DeleteRoles(s, PaceRoles(s.roles)), true, colorOf);
      && (forall l :: l in GuildLayers(cs).value ==> HasRoleNamed(p.state.roles, l.roleName))
      && (p.result.Returns? ==> p.result.value.Made? && |p.result.value.created| == |GuildLayers(cs).value|)
  {
    var s0 := DeleteRoles(s, PaceRoles(s.roles));
    var ls := GuildLayers(cs).value;
    forall l | l in ls ensures HasRoleNamed(Fix(cs, s0, true, colorOf).state.roles, l.roleName) {
      GuildLayerNonzero(cs, l);
      NukedNameGone(s, l.roleName);
      FixFlipsLayerRoles(cs, s0, true, colorOf, l);
    }
    forall l | l in ls ensures l.roleName !in RoleNames(s0.roles) {
      GuildLayerNonzero(cs, l);
      NukedNameGone(s, l.roleName);
    }
    RolesToMakeAll(RoleNames(s0.roles), ls, colorOf);
  }
  /**
   * A pass never adds or drops members, and it returns only when the layer map builds, so
   * a command that reads the layers after a returning pass reads them successfully.
   */
  lemma FixKeepsMembers(cs: seq<Channel>, s: GuildState, force: bool, colorOf: string -> Color)
    ensures |Fix(cs, s, force, colorOf).state.members| == |s.members|
    ensures Fix(cs, s, force, colorOf).result.Returns? ==> GuildLayers(cs).Returns?
  {
    var s1 := DeleteRoles(s, PaceRoles(s.roles));
    DeleteRolesCounts(s, PaceRoles(s.roles));
    if GuildLayers(cs).Returns? {
      CreateRolesEffect(s1, RolesToMake(RoleNames(s.roles), GuildLayers(cs).value, colorOf));
    }
  }

  /** A pass keeps a well-formed guild state well formed: it only deletes roles and creates fresh ones. */
  lemma FixWellFormed(cs: seq<Channel>, s: GuildState, force: bool, colorOf: string -> Color)
    requires WellFormed(s)
    ensures WellFormed(Fix(cs, s, force, colorOf).state)
  {
    var s1 := DeleteRoles(s, PaceRoles(s.roles));
    DeleteRolesWellFormed(s, PaceRoles(s.roles));
    if GuildLayers(cs).Returns? {
      var toMake := RolesToMake(RoleNames(s.roles), GuildLayers(cs).value, colorOf);
      CreateRolesWellFormed(s1, toMake);
    }
  }
}
