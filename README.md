# Steward pace-layer engine, in Dafny

Steward is a Discord bot that organises a server into *feeds*. A feed is a category
whose name starts with 🌿. The text channels under it are *pace layers*, tagged `p1`,
`p2`, … in their names. A member chooses how closely to follow a feed by holding one
role named `<feed> P<depth>`. The bot does four things with this topology:

- it reconciles roles and channel permission overwrites against it;
- it lets members join, leave and re-pace feeds through select menus;
- it sets a slow-mode on every layer channel under a 🌿 category, `floor(3600 / 4^depth)`
  seconds; layers under other categories keep theirs;
- it reposts a message that collects exactly enough ✨ reactions into the layer one
  step toward depth 0.

The model is split into one module per concern:

| file | module | models |
|---|---|---|
| `base.dfy` | `Base` | ids, `undefined` (`Option`), a step that returns or throws (`Outcome`), map reads, `startsWith` |
| `names.dfy` | `Names` | the three name parsers of roleUtils.ts, the older parser of Workflows.cmd.ts, `${n}` and `parseInt` |
| `topology.dfy` | `Topology` | `getLayerMap` (the reduce, the stable depth sort), `getFeedChannels` / `getWorkflowChannels` |
| `reconcile.dfy` | `Reconcile` | guild state as a value; `fixRolesAndPermissions` and `setLayerProperties` as functions on it, and what they promise |
| `server.dfy` | `Server` | the class `Guild`, updated in place by the platform's effects and by the reconciler's loops |
| `misc.dfy` | `Misc` | `/steward reset` and `/steward refresh` |
| `starboard.dfy` | `Starboard` | the ✨ escalation of `onReact` |
| `pace.dfy` | `Pace` | `/pace list`, `/pace set` and both pace select menus |
| `feeds.dfy` | `Feeds` | the feed select menus, join/leave and `/feeds list` |
| `workflows.dfy` | `Workflows` | the older workflow commands |

Code that computes a value is written as functions, with lemmas about them. Code that
changes the guild is written as methods of `Server.Guild`, with loops and invariants.
Each such method is proved against a function of `Reconcile`, and what the source
promises is proved about that function. The platform is abstract state:

- a channel list;
- a role list;
- member role sets;
- an overwrite table `(channel, principal) -> allow/deny`;
- a slow-mode table;
- an outbox of reposts.

A TypeError or a rejected awaited promise is the result `Throws`, never a precondition.

One might expect a feed "Infra" with channels `p0` and `p1` to repost a ✨ in `p1` into
`p0`. The code does otherwise. `if (depth)` drops depth-0 channels, so
`p0` is never a layer, `p1` is the top of its feed, and nothing is reposted. The model
follows the code: `Starboard.DepthZeroIsNoTarget`.

The guild is an object with a class invariant, `Server.Guild.Valid`: channel ids are
distinct, and role ids are distinct and below the next id the platform hands out. The
constructor establishes it, every method of the guild and every command handler keeps
it, and `Reconcile.FixWellFormed` proves that the reconciler's pass keeps it. `Misc.Reset`
uses it to state which old roles survive a reset.

## Model

| member | source | states |
|---|---|---|
| `Names.ReplaceFirstSeparator` | src/commands/roleUtils.ts:18 | the non-global replace changes only the first `[-_\s]` character, to a space; every other character and the length are kept |
| `Names.FeedName` | src/commands/roleUtils.ts:17-19 | a feed name exists exactly when the name is 🌿, one separator and at least one more character; it is that remainder with only its first separator turned into a space |
| `Names.FeedNameExampleSpace` | src/commands/roleUtils.ts:18 | "🌿 Ops Team" names the feed "Ops Team" |
| `Names.FeedNameExampleDashes` | src/commands/roleUtils.ts:18 | "🌿-dev-ops-x" names "dev ops-x": the second dash survives |
| `Names.WorkflowName` | src/commands/Workflows.cmd.ts:16-18 | the older parser is defined exactly when 🌿 and a separator are followed by a non-whitespace character; its capture is a non-empty run of non-whitespace |
| `Names.WorkflowNameAgrees` | src/commands/Workflows.cmd.ts:17 | on names with no whitespace after the separator the two parsers agree |
| `Names.WorkflowNameExample` | src/commands/Workflows.cmd.ts:17 | the older parser stops at the first whitespace: "🌿 Ops Team" gives "Ops" |
| `Names.ChannelDepth` | src/commands/roleUtils.ts:21-24 | there is no depth exactly when no `p` is followed by a digit anywhere in the name |
| `Names.ChannelDepthOfTagged` | src/commands/roleUtils.ts:22-23 | the leftmost `p<digits>` is read with its whole digit run, as a decimal number |
| `Names.ChannelDepthExampleZero` | src/commands/roleUtils.ts:21-24 | `p0` parses to depth 0, not to "no depth" |
| `Names.ChannelDepthExampleInner` | src/commands/roleUtils.ts:22 | the tag may stand anywhere: `up12-x` is depth 12 |
| `Names.RoleDepth` | src/commands/roleUtils.ts:26-29 | a role depth exists exactly when the name ends in ` P<digits>` |
| `Names.RoleDepthOfSuffixed` | src/commands/roleUtils.ts:27 | `prefix + " P" + digits` reads back the digits' value, and stripping the suffix gives back the prefix |
| `Names.RoleDepthShape` | src/commands/roleUtils.ts:26-29 | conversely, a name with a role depth is its stripped prefix, ` P`, and the digits that give the depth |
| `Names.StripPaceSuffix` | src/commands/Pace.cmd.ts:122 | `replace(/ P\d+$/, "")` gives a prefix of the name, and the name itself when there is no suffix |
| `Names.DigitsRoundTrip` | src/commands/roleUtils.ts:83 | `parseInt` of `${n}` is `n` |
| `Names.RoleNameRoundTrip` | src/commands/roleUtils.ts:83 | a layer role name `${feed} P${depth}` reads back its depth, and stripping it gives back the rendered feed name |
| `Names.RoleNameInjective` | src/commands/roleUtils.ts:83 | two layers of one feed share a role name only when they share a depth |
| `Names.RoleNameExample` | src/commands/roleUtils.ts:83 | feed "Alpha" at depth 2 is "Alpha P2", which reads back as depth 2 |
| `Topology.SortByDepth` | src/commands/roleUtils.ts:86 | the result is sorted ascending by depth, is a permutation of the input, and keeps the input order within each depth (stable) |
| `Topology.StableSortUnique` | src/commands/roleUtils.ts:86 | a stable ascending sort by depth has exactly one result, so `SortByDepth` is what `Array.prototype.sort` gives |
| `Topology.LayerMapOf` | src/commands/roleUtils.ts:66-91 | when the layer map is built, every category of the guild is one of its keys |
| `Topology.GetLayerMap` | src/commands/roleUtils.ts:66-91 | the reduce into a mutable dictionary computes the layer map, throwing where the source throws |
| `Topology.LayerMapKeys` | src/commands/roleUtils.ts:73-74 | the keys are exactly the ids of the categories read so far |
| `Topology.LayerMapThrowsIff` | src/commands/roleUtils.ts:79-80 | the reduce throws exactly when some layer channel has no parent, or comes before its parent category |
| `Topology.LayerMapSorted` | src/commands/roleUtils.ts:86 | every list of the map is sorted ascending by depth |
| `Topology.LayerMapSound` | src/commands/roleUtils.ts:76-85 | every layer under a key was built from a layer channel whose parent is that key |
| `Topology.LayerMapComplete` | src/commands/roleUtils.ts:76-85 | with distinct ids, every layer channel has its layer under its parent |
| `Topology.LayerMembership` | src/commands/roleUtils.ts:72-77 | a channel has a layer exactly when it is not a category and its parsed depth is present and nonzero; `p0` and untagged channels never do |
| `Topology.LayerShape` | src/commands/roleUtils.ts:78-84 | a layer has depth at least 1, its feed name is whatever its parent's name parses to (marker or not), and its role name is `<feedName> P<depth>` |
| `Topology.LayerChannelDetermines` | src/commands/roleUtils.ts:80-85 | with distinct ids, one channel carries at most one layer in the whole map |
| `Topology.CategoryChannels` | src/commands/roleUtils.ts:168 | the keys of the layer map, in order: exactly the category channels |
| `Topology.FeedChannels` | src/commands/roleUtils.ts:93-98 | exactly the categories whose name starts with 🌿; the same filter as `getWorkflowChannels` (Workflows.cmd.ts:24-29) |
| `Topology.CategoriesAreKeys` | src/commands/roleUtils.ts:72-74 | the keys of a built map are exactly the category ids |
| `Topology.AllLayersMembers` | src/commands/roleUtils.ts:119-120 | `Object.values(...).flat()` holds exactly the layers listed under some key |
| `Topology.GuildLayers` | src/commands/roleUtils.ts:118-120 | the flattened layers exist exactly when the layer map is built |
| `Topology.GuildLayersMembers` | src/commands/roleUtils.ts:118-120 | the flattened list holds exactly the layers of the layer channels |
| `Topology.GuildLayerShape` | src/commands/roleUtils.ts:83 | every flattened layer has depth at least 1 and a role name that reads back its depth and feed |
| `Topology.FeedPrefixes` | src/commands/Pace.cmd.ts:66 | one prefix per feed category: its feed name, or the fallback when the name does not parse |
| `Reconcile.FindRole` | src/commands/roleUtils.ts:39-41 | a role is found exactly when one has that name, and it is in the list with that name |
| `Reconcile.FindRoleIsFirst` | src/commands/roleUtils.ts:40 | the role found is the first one with that name |
| `Reconcile.PaceRoles` | src/commands/roleUtils.ts:110 | the roles to nuke are exactly those whose parsed role depth is present and nonzero |
| `Reconcile.P0Roles` | src/commands/roleUtils.ts:100-104 | exactly the roles whose parsed depth is 0 |
| `Reconcile.P0NeverNuked` | src/commands/roleUtils.ts:100-111 | a P0 role is never among the roles to nuke |
| `Reconcile.DeleteRole` | src/commands/roleUtils.ts:111 | deleting a role removes it from the role list and drops its overwrites; other overwrites keep their values |
| `Reconcile.DeleteRolesEffect` | src/commands/roleUtils.ts:110-111 | after deleting a list of roles, exactly the others remain; every member loses exactly those ids; exactly their overwrites go; slow-modes and ids are untouched |
| `Reconcile.NukeKeepsExactly` | src/commands/roleUtils.ts:110-111 | after the nuke, exactly the roles without a nonzero depth remain |
| `Reconcile.CreateRolesEffect` | src/commands/roleUtils.ts:134-139 | creating roles appends one fresh role per spec, in order, and changes nothing else |
| `Reconcile.RolesToMakeMembers` | src/commands/roleUtils.ts:118-126 | a spec is made exactly for a layer whose role name is absent from the pre-deletion names, with a colour that depends only on the layer's feed name |
| `Reconcile.RolesToMakeAll` | src/commands/roleUtils.ts:118-126 | when no layer role name exists, one spec per layer, in layer order |
| `Reconcile.RateSecondsIsFloor` | src/commands/roleUtils.ts:190 | the slow-mode of depth d is the floor of 3600 / 4^d |
| `Reconcile.RateSecondsValues` | src/commands/roleUtils.ts:190 | depths 0, 1, 2, 3 get 3600, 900, 225 and 56 seconds |
| `Reconcile.RateSecondsMonotone` | src/commands/roleUtils.ts:190 | deeper layers never get a longer slow-mode |
| `Reconcile.RateSecondsDeep` | src/commands/roleUtils.ts:190 | from depth 6 on the slow-mode is 0 (off) |
| `Reconcile.Viewable` | src/commands/roleUtils.ts:182 | exactly the category's layers at depth at most d |
| `Reconcile.GrantKeysMembers` | src/commands/roleUtils.ts:178-186 | a layer role is granted VIEW on exactly the same-category layers at depth at most its own, and only when the role exists |
| `Reconcile.GrantViewsEffect` | src/commands/roleUtils.ts:183-193 | the inner loop allows the role on each viewable channel, sets each one's slow-mode from its depth, and counts one per channel |
| `Reconcile.GrantLayersEffect` | src/commands/roleUtils.ts:178-194 | the middle loop writes exactly the grant keys, sets the slow-mode of every reached channel, and counts the (layer, viewable layer) pairs |
| `Reconcile.CategoryStepEffect` | src/commands/roleUtils.ts:170-198 | a feed category gets Steward allowed, everyone denied and the cascade; any other category gets Steward allowed, its everyone overwrite deleted, and a count of one |
| `Reconcile.CascadeOverEffect` | src/commands/roleUtils.ts:168-199 | the loop over categories: every written key has its category's value, untouched keys and channels keep theirs, and the count adds up per category |
| `Reconcile.CascadeThrows` | src/commands/roleUtils.ts:159-171 | `setLayerProperties` throws exactly when the layer map throws, or when there is a category and no role named "Steward"; without categories it changes nothing |
| `Reconcile.CascadeEffect` | src/commands/roleUtils.ts:159-207 | every category allows Steward; feed categories deny everyone and grant the cascade; other categories lose their everyone overwrite; feed layers get their slow-mode; nothing else changes |
| `Reconcile.PairCountStrict` | src/commands/roleUtils.ts:192 | with one channel per depth, a feed of n layers adds n(n+1)/2 to `channelsModified` |
| `Reconcile.GuildLayerNonzero` | src/commands/roleUtils.ts:110-126 | every layer role name has a nonzero depth, so the nuke deletes every existing layer role |
| `Reconcile.FixRoles` | src/commands/roleUtils.ts:106-139 | after a pass, every role without a nonzero depth is kept, every role with one is gone, and every new role has a fresh id |
| `Reconcile.FixRolesShape` | src/commands/roleUtils.ts:106-139 | the role list after a pass is the nuked list, followed by the made roles unless the map throws or the pass returns early |
| `Reconcile.NukedNameGone` | src/commands/roleUtils.ts:110-111 | after the nuke, no role carries a nonzero-depth name |
| `Reconcile.FixFlipsLayerRoles` | src/commands/roleUtils.ts:107-139 | a layer role exists after a pass exactly when it did not exist before: deleting, then diffing against the snapshot, flips it |
| `Reconcile.FixTwiceRestores` | src/commands/roleUtils.ts:106-157 | passes are not idempotent: one pass flips each layer role's existence, and a second pass flips it back |
| `Reconcile.FixSkips` | src/commands/roleUtils.ts:126-131 | the pass returns early exactly when the map builds, force is off and every layer role name was present; it then only nukes |
| `Reconcile.FixMade` | src/commands/roleUtils.ts:134-156 | a pass that goes on returns the roles it made, appends them with fresh ids, and gives every member (bots too) every P0 role |
| `Reconcile.ResetRecreatesAll` | src/commands/Misc.cmd.ts:26-35 | after reset's deletion and a forced pass, every layer role exists and the pass reports one made role per layer |
| `Reconcile.FixWellFormed` | src/commands/roleUtils.ts:106-157 | a pass keeps role ids distinct and below the next id: it only deletes roles and creates roles with fresh ids |
| `Reconcile.FixKeepsMembers` | src/commands/roleUtils.ts:106-157 | a pass keeps the member list's length, and returns only when the layer map builds |
| `Server.UserRoles` | src/commands/Pace.cmd.ts:32-33 | the guild roles the member holds, no more: the part of the member's role cache before @everyone |
| `Server.MemberCache` | src/commands/Pace.cmd.ts:32-33 | the member's role cache: exactly the guild roles the member holds, then @everyone last; its names are `HeldNames` |
| `Server.HeldNames` | src/commands/Pace.cmd.ts:33 | the names in the member's role cache: "@everyone", last, and exactly the names of the guild roles the member holds |
| `Server.FeedRoles` | src/commands/Pace.cmd.ts:67 | exactly the roles whose name starts with some feed prefix |
| `Server.EmptyPrefixKeepsAll` | src/commands/Pace.cmd.ts:66-67 | an unparsed feed name gives the prefix "", which every role name starts with, so nothing is filtered out |
| `Server.ResolveRoles` | src/commands/Feeds.cmd.ts:83-85 | exactly the roles found by name for the defined names; undefined names and unknown names are dropped |
| `Server.Guild.DeleteRole` | src/commands/roleUtils.ts:111 | the guild after `role.delete()` is the state function's deletion |
| `Server.Guild.CreateRole` | src/commands/roleUtils.ts:135-139 | `roles.create` appends a role with the next fresh id and returns it |
| `Server.Guild.AddMemberRole` | src/commands/Pace.cmd.ts:137 | the member gains the role; no other member changes |
| `Server.Guild.RemoveMemberRole` | src/commands/Pace.cmd.ts:138 | the member loses the role; no other member changes |
| `Server.Guild.AddMemberRoles` | src/commands/Feeds.cmd.ts:70 | the `forEach(roles.add)` loop gives the member exactly the listed roles' ids |
| `Server.Guild.RemoveMemberRoles` | src/commands/Feeds.cmd.ts:87 | the `forEach(roles.remove)` loop takes exactly the listed roles' ids from the member |
| `Server.Guild.Send` | src/commands/Starboard.cmd.ts:89 | one post is appended to the outbox |
| `Server.Guild.DeletePaceRoles` | src/commands/Misc.cmd.ts:26-28 | deletes exactly the nonzero-depth roles, returning them |
| `Server.Guild.CreateRoles` | src/commands/roleUtils.ts:134-139 | the creation loop computes the state function's creation |
| `Server.Guild.GrantToAll` | src/commands/roleUtils.ts:146-148 | every member gains every given role |
| `Server.Guild.GrantViewsIn` | src/commands/roleUtils.ts:183-193 | the inner loop updates the overwrite and slow-mode tables and the counter as the cascade function does |
| `Server.Guild.GrantLayersIn` | src/commands/roleUtils.ts:178-194 | the middle loop, likewise |
| `Server.Guild.CategoryStepIn` | src/commands/roleUtils.ts:170-198 | one category's callback, likewise |
| `Server.Guild.SetLayerProperties` | src/commands/roleUtils.ts:159-207 | throws exactly when the cascade function does, writing nothing; otherwise leaves the tables and count the cascade function gives |
| `Server.Guild.FixRolesAndPermissions` | src/commands/roleUtils.ts:106-157 | the pass leaves the guild and returns the result that `Fix` describes |
| `Server.Guild.MakeAndBind` | src/commands/roleUtils.ts:118-157 | the part of the pass after the nuke, against the pre-deletion snapshot |
| `Misc.Reset` | src/commands/Misc.cmd.ts:12-43 | without a guild or member nothing happens; a non-administrator is refused with the guild unchanged; an administrator gets the nuke and a forced pass, with the nuked roles and the pass's result in the reply; of the old roles, exactly those without a nonzero depth survive |
| `Misc.ResetRoles` | src/commands/Misc.cmd.ts:26-35 | after a reset, the roles without a nonzero depth survive, the old nonzero-depth roles are gone, every layer role exists, and one role is made per layer |
| `Misc.Refresh` | src/commands/Misc.cmd.ts:46-61 | in a guild, only the cascade runs and roles and members are unchanged; elsewhere only a reply |
| `Starboard.Threshold` | src/commands/Starboard.cmd.ts:49 | the least k with 169n <= 200k², that is `ceil(1.3 * sqrt(n / 2))` |
| `Starboard.ThresholdUnique` | src/commands/Starboard.cmd.ts:49 | any k with that property is the threshold |
| `Starboard.ThresholdOfEight` | src/commands/Starboard.cmd.ts:49 | eight people give threshold 3, so two or four reactions do not fire |
| `Starboard.ThresholdMonotone` | src/commands/Starboard.cmd.ts:49 | a larger audience never lowers the threshold |
| `Starboard.DedupeKeepsFirst` | src/commands/Starboard.cmd.ts:46 | a layer survives dedupe exactly when it is the first with its role name |
| `Starboard.DedupeCovers` | src/commands/Starboard.cmd.ts:46 | every role name of the input survives dedupe once |
| `Starboard.FirstAtDepth` | src/commands/Starboard.cmd.ts:59 | the sent layer exists exactly when some layer has the channel's parsed depth |
| `Starboard.SameFeed` | src/commands/Starboard.cmd.ts:60-61 | exactly the layers of the sent layer's feed |
| `Starboard.IndexAtDepth` | src/commands/Starboard.cmd.ts:65-67 | `findIndex` gives the first index with that depth |
| `Starboard.TargetIsPrevious` | src/commands/Starboard.cmd.ts:59-87 | no sent layer throws; the result is "at top" exactly when no layer of the feed is shallower; a repost goes to a shallower layer of the same feed with nothing between |
| `Starboard.Decide` | src/commands/Starboard.cmd.ts:30-94 | the reaction is ignored exactly when the emoji differs, the channel has no parent, or the built map has the parent and the count (null as 0) misses the threshold |
| `Starboard.AsWrittenIgnoresSparkle` | src/commands/Starboard.cmd.ts:36 | as written, a ✨ reaction is always ignored |
| `Starboard.TargetOfSingle` | src/commands/Starboard.cmd.ts:70-73 | a feed of one layer is its own top: nothing is sent |
| `Starboard.TargetOfPair` | src/commands/Starboard.cmd.ts:86-87 | from the deeper of two layers of one feed the repost goes to the shallower |
| `Starboard.InfraOneTwo` | src/commands/roleUtils.ts:72-90 | a feed with channels `p1` and `p2` maps to two layers, sorted, of one feed |
| `Starboard.DepthZeroIsNoTarget` | src/commands/Starboard.cmd.ts:59-73 | in a feed with `p0` and `p1`, a message in `p1` that hits the threshold is not reposted: `p0` is no layer |
| `Starboard.SparkleEscalatesOnlyAsIntended` | src/commands/Starboard.cmd.ts:36-89 | in a feed with `p1` and `p2`, a ✨ that hits the threshold in `p2` is reposted to `p1`, and the as-written handler ignores it |
| `Starboard.OnReact` | src/commands/Starboard.cmd.ts:30-94 | the handler decides as `Decide` on the real ✨, sends exactly one post to the target on a repost and none otherwise, and changes nothing else |
| `Pace.UpTo` | src/commands/Pace.cmd.ts:38-39 | exactly the same-feed layers at depth at most the given layer's |
| `Pace.Held` | src/commands/Pace.cmd.ts:35 | exactly the layers whose role name the member holds |
| `Pace.FieldOf` | src/commands/Pace.cmd.ts:37-47 | a field names the layer's feed and depth and lists the same-feed layers up to it, sorted ascending |
| `Pace.LayoutSound` | src/commands/Pace.cmd.ts:35-48 | every field of `/pace list` is the field of a layer the member holds |
| `Pace.LayoutComplete` | src/commands/Pace.cmd.ts:35-48 | every layer the member holds has its field |
| `Pace.LayoutEmpty` | src/commands/Pace.cmd.ts:50-52 | the list is empty exactly when the member holds no layer role |
| `Pace.List` | src/commands/Pace.cmd.ts:26-61 | in a guild, the pass runs first and the fields are computed from its result; a throwing pass throws |
| `Pace.FeedMenu` | src/commands/Pace.cmd.ts:63-79 | the options are exactly the member's roles under some feed prefix, labelled and valued by the name stripped of ` P<digits>` |
| `Pace.FeedMenuOffersHeldFeed` | src/commands/Pace.cmd.ts:66-70 | a member holding any layer role of a parsed feed is offered that feed |
| `Pace.UnparsedFeedOffersEverything` | src/commands/Pace.cmd.ts:66-67 | one 🌿 category whose name does not parse makes every role of the member an option |
| `Pace.UnparsedFeedOffersEveryone` | src/commands/Pace.cmd.ts:63-70 | with such a category, the menu built from the member's cache offers "@everyone" to every member |
| `Pace.Set` | src/commands/Pace.cmd.ts:143-156 | the pass runs, then the feed menu is built from the member's roles after it |
| `Pace.PaceMenu` | src/commands/Pace.cmd.ts:97-114 | exactly one option per layer of the feed, captioned "Pace Layer d" and valued by its role name |
| `Pace.HandlePaceRoleSelection` | src/commands/Pace.cmd.ts:81-95 | the pass runs, then the pace menu of the picked feed is built from the layers |
| `Pace.OldPaceName` | src/commands/Pace.cmd.ts:124 | when some held role starts with the feed name, the old pace role is the first such role in cache order; when none does, it is "" |
| `Pace.PickFromPaceMenu` | src/commands/Pace.cmd.ts:120-139 | picking a menu option when the old role is `<feed> P<d0>` changes nothing at equal depth, and otherwise adds that layer's role and moves up exactly when its depth is greater |
| `Pace.PickOutsideFeed` | src/commands/Pace.cmd.ts:122-136 | a member with no role of the feed has old depth 0, so any nonzero pick is "Upped", and with no old role to remove the handler throws after the add |
| `Pace.HandlePaceSelection` | src/commands/Pace.cmd.ts:116-141 | equal depths change nothing; a missing new role throws with nothing changed; a missing old role throws after the add; otherwise the new role is added, the old one removed, and "Upped" is said exactly when the depth grew |
| `Pace.ApplySwap` | src/commands/Pace.cmd.ts:130-139 | the role updates of the swap, as above |
| `Feeds.JoinOptions` | src/commands/Feeds.cmd.ts:28-30 | one option per 🌿 category, label and value its feed name, or "c" when the name does not parse |
| `Feeds.LeaveOptions` | src/commands/Feeds.cmd.ts:31-34 | exactly the member's roles under some feed prefix, labelled by the stripped name and valued by the full name |
| `Feeds.RoleSelectMenu` | src/commands/Feeds.cmd.ts:26-45 | throws exactly when nothing is offered; otherwise the options are exactly the offered ones |
| `Feeds.FeedRoleName` | src/commands/Feeds.cmd.ts:61 | present exactly when the feed has a layer, and then the role name of the feed's first layer in layer order |
| `Feeds.JoinTargets` | src/commands/Feeds.cmd.ts:59-61 | the picked feeds no held role name starts with, each mapped to its first layer's role name |
| `Feeds.JoinRolesMembers` | src/commands/Feeds.cmd.ts:59-64 | a role is joined exactly when it is the existing role of a picked feed's first layer and the member is not in that feed |
| `Feeds.JoinAfterCompleteGuild` | src/commands/Feeds.cmd.ts:48-68 | when every layer role exists beforehand, the pass returns early after nuking them, so joining finds no role and adds nothing |
| `Feeds.JoinAfterEmptyGuild` | src/commands/Feeds.cmd.ts:48-64 | when no layer role exists beforehand, the pass makes them, and a picked feed the member is not in is joined |
| `Feeds.HandleJoin` | src/commands/Feeds.cmd.ts:47-72 | the pass runs first; with nothing to add only the pass's changes remain; otherwise the member gains exactly the joined roles |
| `Feeds.HandleLeave` | src/commands/Feeds.cmd.ts:74-89 | the pass runs first; then the member loses exactly the picked names that are existing roles |
| `Feeds.LeaveRemovesNamed` | src/commands/Feeds.cmd.ts:83-87 | a role is removed exactly when its name was picked and it is the first role of that name |
| `Feeds.People` | src/commands/Feeds.cmd.ts:104-107 | the people count is at most the number of members; what it counts is stated by the two lemmas below |
| `Feeds.PeopleAppend` | src/commands/Feeds.cmd.ts:104-107 | one more member adds one exactly when it is not a bot and can see the channel: a bot never changes the count, a viewing non-bot adds exactly one |
| `Feeds.PeopleAreNotBots` | src/commands/Feeds.cmd.ts:107 | the people count is at most the number of non-bots, and equals it when every member can see the channel |
| `Feeds.LayerRoles` | src/commands/Feeds.cmd.ts:99-100 | one entry per layer: a role exactly when some guild role has the layer's role name, and then the first such role |
| `Feeds.FeedRows` | src/commands/Feeds.cmd.ts:101-110 | exactly one row per feed category with at least one layer, carrying its people count, its layers and their roles |
| `Feeds.List` | src/commands/Feeds.cmd.ts:91-119 | the pass runs first; the rows are computed from the layer map and the guild after it |
| `Workflows.WorkflowNames` | src/commands/Workflows.cmd.ts:48 | one name per 🌿 category; a name occurs exactly when some 🌿 category parses to it, and "" occurs exactly when some 🌿 category does not parse |
| `Workflows.WorkflowMenu` | src/commands/Workflows.cmd.ts:31-44 | exactly one option per workflow name, label and value the name |
| `Workflows.MissingRoles` | src/commands/Workflows.cmd.ts:52-53 | exactly the workflow names that are not role names, each with colour "RANDOM" |
| `Workflows.NothingMissing` | src/commands/Workflows.cmd.ts:52-53 | when every workflow name is a role name nothing is missing |
| `Workflows.CreateMissingTwice` | src/commands/Workflows.cmd.ts:46-69 | after the missing roles are made every workflow name is a role name, and a second run makes nothing |
| `Workflows.MissingRolesMade` | src/commands/Workflows.cmd.ts:46-69 | for any list of names, creating the roles missing for it leaves every name a role name, so nothing is missing afterwards |
| `Workflows.DuplicateNamesMadeTwice` | src/commands/Workflows.cmd.ts:52-68 | two categories with one new name make two roles of that name |
| `Workflows.CreateMissingRoles` | src/commands/Workflows.cmd.ts:46-69 | creates exactly the missing roles, in channel order |
| `Workflows.NotHeld` | src/commands/Workflows.cmd.ts:86 | exactly the picks the member does not hold by exact name |
| `Workflows.JoinRoles` | src/commands/Workflows.cmd.ts:86-89 | exactly the first roles named by picks that the member does not hold by exact name |
| `Workflows.JoinFindsMadeRoles` | src/commands/Workflows.cmd.ts:71-95 | after the missing roles are made, every picked workflow name the member does not hold is joined |
| `Workflows.HandleJoin` | src/commands/Workflows.cmd.ts:71-97 | the missing roles are made first; with nothing to add nothing else changes; otherwise the member gains exactly the joined roles |
| `Workflows.WorkflowList` | src/commands/Workflows.cmd.ts:99-116 | one row per 🌿 category; a row occurs exactly when a 🌿 category has its name and parse, and its role is missing exactly when the name is not 🌿, a separator and a non-whitespace character |

## Left out

- Process plumbing, logging and the demo commands: `src/client.ts`, `src/api/Health.cmd.ts`, `src/logging.ts` and `src/commands/Hi.cmd.ts` have no behaviour worth a contract.
- Floating point. The ✨ threshold `Math.ceil(1.3 * Math.sqrt(n / 2))` is its exact integer form, the least k with 169n <= 200k². A rounding error of the floating-point square root at an exact boundary is not modelled. The slow-mode `Math.floor(3600 * 4^-d)` is exact in floating point and is modelled as `3600 / 4^d` rounded down.
- Names.DigitsRoundTrip: pace depths are exact natural numbers. The source's depths are JavaScript numbers: `parseInt` (roleUtils.ts:23) rounds a digit run above 2^53 to the nearest double, and `${depth}` (roleUtils.ts:83) writes a depth of 1e21 or more in exponent form. The model matches the source only for depths below 2^53. Above that, two channels such as `p9007199254740992` and `p9007199254740993` get one depth and one role name in the source but two in the model.
- Names.RoleNameRoundTrip: holds for every depth in the model; in the source a layer at depth 1e21 or more is named like "Alpha P1e+21", from which `/ P(\d+)$/` (roleUtils.ts:27) reads no depth.
- Topology.GuildLayerShape: the same bound; from depth 1e21 the source's layer role name does not read back its depth.
- Reconcile.GuildLayerNonzero: the same bound; from depth 1e21 the source's layer role has no depth, so the pass never nukes it (roleUtils.ts:110) and, once made, never makes it again. Reconcile.FixFlipsLayerRoles, Reconcile.FixTwiceRestores, Reconcile.ResetRecreatesAll, Misc.ResetRoles and Feeds.JoinAfterCompleteGuild, which say such a role flips or is remade on every pass, hold in the source only for depths below 1e21 (and, for distinct channels sharing a rounded depth, below 2^53).
- Role colours: `colorHash.hex` (roleUtils.ts:122) is a foreign library; it is the parameter `colorOf`, a function of the feed name.
- `dedupe` (imported at Starboard.cmd.ts:3 from roleUtils.ts, which does not define it) is not part of this model. It is taken to keep the first layer of each role name, in order.
- Messages, embeds and menus are not rendered. Replies are datatypes (`ResetReply`, `PaceReply`, `Reply`, `JoinReply`), menus are their option lists, and `/pace list` and `/feeds list` fields are their contents, not their text. The embed of a repost is the message id it carries.
- Concurrency. Every `Promise.all` and `forEach` is one sequential loop in list order. The model assumes a runtime that ignores a rejected promise nobody awaits and carries on. src/client.ts installs no `unhandledRejection` handler, and Node.js 15 and later end the process on such a rejection; under the assumption, each one is a skipped write:
  - a missing layer role at roleUtils.ts:179-186 skips that overwrite, but slow-mode and the counter still happen;
  - a missing Steward role rejects the first awaited write of every category callback, so nothing is written and the call throws.
- Platform permission resolution. Who can see a channel is a parameter: `canView` for `/feeds list`, and the number of humans in `Reaction` for the ✨ threshold. `reaction.fetch()` of a partial reaction is not modelled.
- The member's role cache is the guild's roles the member holds, in guild order, then @everyone (`Server.MemberCache`), read after the reconciler pass has run.
- Server.UserRoles: the guild's role list in the model has no @everyone role. @everyone is only the last entry of the member's cache (`Server.MemberCache`, which Pace.FeedMenu reads through Pace.Set and which Pace.HandlePaceSelection swaps from, so Pace.UnparsedFeedOffersEveryone holds) and the principal `Everyone` of the overwrite table. Name lookups in the guild's roles therefore never find "@everyone": for a 🌿 category named "🌿 @everyone", Workflows.MissingRoles makes a role "@everyone" where the source finds the name taken, and a leave that names "@everyone" skips the removal that the platform would reject.
- Feeds.HandleJoin, Feeds.HandleLeave, Feeds.List and Feeds.RoleSelectMenu follow the intended reading, as calls on the guild. As written, Feeds.cmd.ts:28, 50, 77, 94 and 101 pass the interaction where roleUtils.ts expects a guild, and every such call throws a TypeError: `fixRolesAndPermissions` at roleUtils.ts:59, which reads the roles of the interaction, and `getFeedChannels` at roleUtils.ts:55, which reads its channels. (`getLayerMap` on the interaction returns an empty map instead of throwing.) So as written `/feeds join` (Feeds.cmd.ts:125) and the join, leave and list handlers throw before they change anything, while `/feeds leave` catches the TypeError of Feeds.cmd.ts:139 in its `try`: its `catch` (Feeds.cmd.ts:144-150) answers only the 'No roles to leave!' error, so for this one it falls through, the command resolves with `undefined`, and the deferred reply is never edited.
- Workflows.HandleJoin takes a guild: outside a guild the source crashes on the missing member, and that path is not modelled.
- `/feeds join`, `/feeds leave` and `/workflows join` only build a menu. The menu is `Feeds.RoleSelectMenu` (whose throw `/feeds leave` turns into a reply) or `Workflows.WorkflowMenu`. The `setMaxValues` bound and the placeholders are not modelled.
- Feeds.cmd.ts and Workflows.cmd.ts both register the select menu id `join-role-menu`. Which handler the framework runs is not modelled: both handlers are modelled, each on its own.
- Pace.HandlePaceRoleSelection takes the picked feed as a parameter: the source reads `values[0]`, and other picks are ignored.
- `getServerChannels`, `getServerRoles`, `getServerMembers`, `getPaceRoleDepth` and `channelToLayer` are plain accessors or unused wrappers. The model reads the guild's fields and `Names.RoleDepth` directly.
- Unicode: 🌿 is one character (`Names.Marker`), without its UTF-16 surrogate pair. `\s` is the ECMAScript whitespace set. Strings have no normalisation.
- Ids are natural numbers compared for equality. Creating a role takes the guild's next id.

## Findings

| source | as written | input that shows it | evidently intended | confidence | as-written member | corrected member |
|---|---|---|---|---|---|---|
| src/commands/Starboard.cmd.ts:36 | the emoji name is compared with "âœ¨", the UTF-8 bytes of ✨ read as Windows-1252 (the reply strings of Misc.cmd.ts show the same misencoding) | a ✨ reaction (name U+2728) counted 3 times, 8 people watching, on a message in `p2` of a feed with `p1` and `p2` | compare with "✨", so that message is reposted to `p1` | not executed | `Starboard.AsWrittenIgnoresSparkle` | `Starboard.SparkleEscalatesOnlyAsIntended` |
