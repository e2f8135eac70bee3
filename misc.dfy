/**
 * The `/steward reset` and `/steward refresh` commands of Misc.cmd.ts: reset nukes every
 * pace role and reruns the reconciler with `force`; refresh reruns only the cascade.
 */
module Misc {
  import opened Base
  import opened Names
  import opened Topology
  import opened Reconcile
  import opened Server

  /** What `/steward reset` answers. `Ignored`: no guild or member, nothing happens. */
  datatype ResetReply = Ignored | NotAdmin | Nuked(deleted: seq<Role>, made: FixResult)

  /** What `/steward refresh` answers. */
  datatype RefreshReply = NotInGuild | Rebound

  /** The state reset leaves: the pace roles deleted, then a forced reconciler pass. */
  function ResetPass(cs: seq<Channel>, s: GuildState, colorOf: string -> Color): Pass {
    Fix(cs, DeleteRoles(s, PaceRoles(s.roles)), true, colorOf)
  }

  /**
   * `reset`: only with a guild and a member; a non-administrator is refused before
   * anything changes; otherwise delete every role with a nonzero pace depth and run
   * `fixRolesAndPermissions(guild, true)`. The guild stays well formed, so of its old roles
   * exactly those without a nonzero depth survive.
   */
  method Reset(g: Guild?, hasMember: bool, isAdmin: bool, colorOf: string -> Color) returns (r: Outcome<ResetReply>)
    requires g != null ==> g.Valid()
    modifies g
    ensures g != null ==> g.Valid()
    ensures g == null || !hasMember ==> r == Returns(Ignored)
    ensures g != null && hasMember && !isAdmin ==> r == Returns(NotAdmin)
    ensures g != null && !(hasMember && isAdmin) ==> unchanged(g)
    ensures g != null && hasMember && isAdmin ==>
      var p := ResetPass(old(g.channels), old(g.State()), colorOf);
      && g.channels == old(g.channels) && g.outbox == old(g.outbox)
      && g.State() == p.state
      && (r.Throws? <==> p.result.Throws?)
      && (r.Returns? ==> r.value == Nuked(PaceRoles(old(g.roles)), p.result.value))
    ensures g != null && hasMember && isAdmin ==>
      && (forall x :: x in old(g.roles) && !HasNonzeroDepth(x.name) ==> x in g.roles)
      && (forall x :: x in old(g.roles) && HasNonzeroDepth(x.name) ==> x !in g.roles)
  {
    if g == null || !hasMember {
      return Returns(Ignored);
    }
    if !isAdmin {
      return Returns(NotAdmin);
    }
    ResetSortsOldRoles(g.channels, g.State(), colorOf);
    var feedRoles := g.DeletePaceRoles();
    var madeRoles := g.FixRolesAndPermissions(true, colorOf);
    if madeRoles.Throws? {
      return Throws;
    }
    return Returns(Nuked(feedRoles, madeRoles.value));
  }

  /**
   * What reset does to the roles of a guild whose layer map builds: every role without a
   * nonzero depth survives, every role with one is gone, every layer role exists again,
   * and when the pass returns it reports one made role per layer.
   */
  lemma ResetRoles(cs: seq<Channel>, s: GuildState, colorOf: string -> Color)
    requires WellFormed(s) && GuildLayers(cs).Returns?
    ensures var p := ResetPass(cs, s, colorOf);
      && (forall x :: x in s.roles && !HasNonzeroDepth(x.name) ==> x in p.state.roles)
      && (forall x :: x in s.roles && HasNonzeroDepth(x.name) ==> x !in p.state.roles)
      && (forall l :: l in GuildLayers(cs).value ==> HasRoleNamed(p.state.roles, l.roleName))
      && (p.result.Returns? ==> p.result.value.Made? && |p.result.value.created| == |GuildLayers(cs).value|)
  {
    ResetSortsOldRoles(cs, s, colorOf);
    ResetRecreatesAll(cs, s, colorOf);
  }

  /** The old roles after reset: those without a nonzero depth stay, the others are gone. */
  lemma ResetSortsOldRoles(cs: seq<Channel>, s: GuildState, colorOf: string -> Color)
    requires WellFormed(s)
    ensures var after := ResetPass(cs, s, colorOf).state;
      && (forall x :: x in s.roles && !HasNonzeroDepth(x.name) ==> x in after.roles)
      && (forall x :: x in s.roles && HasNonzeroDepth(x.name) ==> x !in after.roles)
  {
    var s1 := DeleteRoles(s, PaceRoles(s.roles));
    NukeKeepsExactly(s);
    DeleteRolesEffect(s, PaceRoles(s.roles));
    DeleteRolesWellFormed(s, PaceRoles(s.roles));
    FixRoles(cs, s1, true, colorOf);
    forall x | x in s.roles && HasNonzeroDepth(x.name) ensures x !in ResetPass(cs, s, colorOf).state.roles {
      var i :| 0 <= i < |s.roles| && s.roles[i] == x;
      assert x.id < s1.nextId;
    }
  }

  /** `refresh`: in a guild, run `setLayerProperties`; elsewhere only reply. */
  method Refresh(g: Guild?) returns (r: Outcome<RefreshReply>)
    requires g != null ==> g.Valid()
    modifies g
    ensures g != null ==> g.Valid()
    ensures g == null ==> r == Returns(NotInGuild)
    ensures g != null ==>
      var c := Cascade(old(g.channels), old(g.roles), Tables(old(g.overwrites), old(g.rateLimits), 0));
      && g.channels == old(g.channels) && g.roles == old(g.roles) && g.members == old(g.members)
      && g.nextId == old(g.nextId) && g.outbox == old(g.outbox)
      && (r.Throws? <==> c.Throws?)
      && (r.Throws? ==> g.overwrites == old(g.overwrites) && g.rateLimits == old(g.rateLimits))
      && (r.Returns? ==> r.value == Rebound && c.value.overwrites == g.overwrites && c.value.rateLimits == g.rateLimits)
  {
    if g == null {
      return Returns(NotInGuild);
    }
    var done := g.SetLayerProperties();
    if done.Throws? {
      return Throws;
    }
    return Returns(Rebound);
  }
}
