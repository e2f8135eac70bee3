/**
 * The `/workflows` commands of Workflows.cmd.ts, the older variant of feeds: one role per
 * 🌿 category, named by the first non-whitespace run of its name, created on demand with a
 * random colour, and joined by exact name.
 */
module Workflows {
  import opened Base
  import opened Names
  import opened Topology
  import opened Reconcile
  import opened Server

  /** The colour `roles.create` is given for a workflow role. */
  const Random: Color := "RANDOM"

  /**
   * The workflow names, one per 🌿 category in channel order: what the older parser makes
   * of the category's name, and "" exactly for a category whose name it does not parse.
   */
  function WorkflowNames(cs: seq<Channel>): (r: seq<string>)
    ensures |r| == |FeedChannels(cs)|
    ensures forall n :: n in r <==>
      exists c :: c in cs && c.kind == Category && IsWorkflow(c.name) && n == WorkflowName(c.name).GetOr("")
    ensures "" in r <==> exists c :: c in cs && c.kind == Category && IsWorkflow(c.name) && WorkflowName(c.name).None?
  {
    var fs := FeedChannels(cs);
    var r := seq(|fs|, i requires 0 <= i < |fs| => WorkflowName(fs[i].name).GetOr(""));
    forall c | c in fs ensures WorkflowName(c.name).GetOr("") in r {
      var i :| 0 <= i < |fs| && fs[i] == c;
      assert r[i] == WorkflowName(c.name).GetOr("");
    }
    r
  }

  /** `createRoleSelectMenu`: one option per workflow category, label and value its name. */
  function WorkflowMenu(cs: seq<Channel>): (r: seq<MenuOption>)
    ensures |r| == |FeedChannels(cs)|
    ensures forall o :: o in r <==> exists n :: n in WorkflowNames(cs) && o == MenuOption(n, n)
  {
    var ns := WorkflowNames(cs);
    var r := seq(|ns|, i requires 0 <= i < |ns| => MenuOption(ns[i], ns[i]));
    forall n | n in ns ensures MenuOption(n, n) in r {
      var i :| 0 <= i < |ns| && ns[i] == n;
      assert r[i] == MenuOption(n, n);
    }
    r
  }

  /** The workflow names that name no role of the guild, each as a spec with colour "RANDOM". */
  function MissingRoles(serverNames: seq<string>, names: seq<string>): (r: seq<RoleSpec>)
    ensures |r| <= |names|
    ensures forall x :: x in r <==> x.color == Random && x.name in names && x.name !in serverNames
  {
    if names == [] then []
    else
      (if names[0] in serverNames then [] else [RoleSpec(names[0], Random)])
      + MissingRoles(serverNames, names[1..])
  }

  /** When every workflow name already names a role, nothing is missing. */
  lemma {:induction false} NothingMissing(serverNames: seq<string>, names: seq<string>)
    requires forall n :: n in names ==> n in serverNames
    ensures MissingRoles(serverNames, names) == []
  {
    if names != [] {
      assert names[0] in names;
      NothingMissing(serverNames, names[1..]);
    }
  }

  /**
   * After the missing roles are made, every workflow name is a role name, so running
   * `createMissingRoles` again on the unchanged guild makes nothing.
   */
  lemma CreateMissingTwice(cs: seq<Channel>, s: GuildState)
    ensures var s' := CreateRoles(s, MissingRoles(RoleNames(s.roles), WorkflowNames(cs)));
      && (forall n :: n in WorkflowNames(cs) ==> n in RoleNames(s'.roles))
      && MissingRoles(RoleNames(s'.roles), WorkflowNames(cs)) == []
  {
    MissingRolesMade(s, WorkflowNames(cs));
  }

  /** Creating the roles missing for `names` leaves every name of `names` a role name. */
  lemma MissingRolesMade(s: GuildState, names: seq<string>)
    ensures var s' := CreateRoles(s, MissingRoles(RoleNames(s.roles), names));
      && (forall n :: n in names ==> n in RoleNames(s'.roles))
      && MissingRoles(RoleNames(s'.roles), names) == []
  {
    var specs := MissingRoles(RoleNames(s.roles), names);
    var s' := CreateRoles(s, specs);
    CreateRolesEffect(s, specs);
    var made := NewRoles(s.nextId, specs);
    forall n | n in names ensures n in RoleNames(s'.roles) {
      if n in RoleNames(s.roles) {
        var i :| 0 <= i < |s.roles| && RoleNames(s.roles)[i] == n;
        assert s'.roles[i] == s.roles[i];
        assert RoleNames(s'.roles)[i] == n;
      } else {
        assert RoleSpec(n, Random) in specs;
        var k :| 0 <= k < |specs| && specs[k] == RoleSpec(n, Random);
        NewRolesAt(s.nextId, specs, k);
        assert s'.roles[|s.roles| + k] == made[k];
        assert RoleNames(s'.roles)[|s.roles| + k] == n;
      }
    }
    NothingMissing(RoleNames(s'.roles), names);
  }

  /**
   * Two workflow categories with the same name that has no role yet both make it: the
   * diff is against the roles before creation, not as they are being created.
   */
  lemma DuplicateNamesMadeTwice(n: string)
    ensures MissingRoles([], [n, n]) == [RoleSpec(n, Random), RoleSpec(n, Random)]
  {
    assert [n, n][1..] == [n];
  }

  /** `createMissingRoles`: create each missing workflow role, in channel order. */
  method CreateMissingRoles(g: Guild)
    requires g.Valid()
    modifies g
    ensures g.Valid()
    ensures g.State() == CreateRoles(old(g.State()), MissingRoles(RoleNames(old(g.roles)), WorkflowNames(g.channels)))
    ensures g.channels == old(g.channels) && g.outbox == old(g.outbox)
  {
    var toMake := MissingRoles(RoleNames(g.roles), WorkflowNames(g.channels));
    g.CreateRoles(toMake);
  }

  /** The picks the member does not hold by exact name, in pick order. */
  function NotHeld(selected: seq<string>, userNames: seq<string>): (r: seq<Option<string>>)
    ensures forall t :: t in r <==> t.Some? && t.value in selected && t.value !in userNames
  {
    if selected == [] then []
    else (if selected[0] in userNames then [] else [Some(selected[0])]) + NotHeld(selected[1..], userNames)
  }

  /** The roles `handleJoin` adds in state `s`: picked names not held exactly, that have a role. */
  function JoinRoles(s: GuildState, who: nat, selected: seq<string>): (r: seq<Role>)
    requires who < |s.members|
    ensures forall x :: x in r <==>
      x.name in selected && x.name !in HeldNames(s.roles, s.members[who]) && FindRole(s.roles, x.name) == Some(x)
  {
    var names := NotHeld(selected, HeldNames(s.roles, s.members[who]));
    var r := ResolveRoles(s.roles, names);
    forall x: Role | x.name in selected && x.name !in HeldNames(s.roles, s.members[who]) && FindRole(s.roles, x.name) == Some(x)
      ensures x in r
    {
      assert Some(x.name) in names;
    }
    r
  }

  /**
   * After `createMissingRoles`, every picked workflow name the member does not hold
   * resolves to a role, so each such pick is joined.
   */
  lemma JoinFindsMadeRoles(cs: seq<Channel>, s: GuildState, who: nat, selected: seq<string>, n: string)
    requires who < |s.members|
    requires n in selected && n in WorkflowNames(cs)
    ensures var s' := CreateRoles(s, MissingRoles(RoleNames(s.roles), WorkflowNames(cs)));
      && |s'.members| == |s.members|
      && (n !in HeldNames(s'.roles, s'.members[who]) ==>
            exists x :: x in JoinRoles(s', who, selected) && x.name == n)
  {
    var s' := CreateRoles(s, MissingRoles(RoleNames(s.roles), WorkflowNames(cs)));
    CreateRolesEffect(s, MissingRoles(RoleNames(s.roles), WorkflowNames(cs)));
    CreateMissingTwice(cs, s);
    var i :| 0 <= i < |s'.roles| && RoleNames(s'.roles)[i] == n;
    assert HasRoleNamed(s'.roles, n);
    if n !in HeldNames(s'.roles, s'.members[who]) {
      var x := FindRole(s'.roles, n).value;
      assert x in JoinRoles(s', who, selected);
    }
  }

  /** What `handleJoin` replies. */
  datatype JoinReply = NothingAdded | Added(roles: seq<Role>)

  /**
   * `handleJoin`: make the missing workflow roles, then add to the member each picked role
   * the member does not hold by exact name; with none, reply and change nothing more.
   */
  method HandleJoin(g: Guild, who: nat, selected: seq<string>) returns (r: JoinReply)
    requires who < |g.members|
    requires g.Valid()
    modifies g
    ensures g.Valid()
    ensures var s1 := CreateRoles(old(g.State()), MissingRoles(RoleNames(old(g.roles)), WorkflowNames(old(g.channels))));
      && g.channels == old(g.channels) && g.outbox == old(g.outbox)
      && |s1.members| == |old(g.members)|
      && var ids := JoinRoles(s1, who, selected);
      && (|ids| == 0 ==> r == NothingAdded && g.State() == s1)
      && (|ids| > 0 ==> r == Added(ids) && g.State() == AddRolesTo(s1, who, RoleIds(ids)))
  {
    CreateRolesEffect(g.State(), MissingRoles(RoleNames(g.roles), WorkflowNames(g.channels)));
    CreateMissingRoles(g);
    var userNames := HeldNames(g.roles, g.members[who]);
    var ids := ResolveRoles(g.roles, NotHeld(selected, userNames));
    if |ids| == 0 {
      return NothingAdded;
    }
    g.AddMemberRoles(who, ids);
    return Added(ids);
  }

  /** One field of `/workflows list`: the category name and the role it maps to. */
  datatype WorkflowRow = WorkflowRow(name: string, role: Option<string>)

  /**
   * `list`: one row per 🌿 category, its name and the role name the older parser gives
   * it; the role is `undefined` exactly when the name is not 🌿, a separator and a
   * non-whitespace character.
   */
  function WorkflowList(cs: seq<Channel>): (r: seq<WorkflowRow>)
    ensures |r| == |FeedChannels(cs)|
    ensures forall row :: row in r <==>
      exists c :: c in cs && c.kind == Category && IsWorkflow(c.name) && row == WorkflowRow(c.name, WorkflowName(c.name))
    ensures forall row :: row in r ==>
      (row.role.None? <==> !(|row.name| >= 3 && IsSeparator(row.name[1]) && !IsWhitespace(row.name[2])))
  {
    var fs := FeedChannels(cs);
    var r := seq(|fs|, i requires 0 <= i < |fs| => WorkflowRow(fs[i].name, WorkflowName(fs[i].name)));
    forall c | c in fs ensures WorkflowRow(c.name, WorkflowName(c.name)) in r {
      var i :| 0 <= i < |fs| && fs[i] == c;
      assert r[i] == WorkflowRow(c.name, WorkflowName(c.name));
    }
    r
  }
}
