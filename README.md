# PublishPress Revisions / Posts 2 Posts integration, modelled in Dafny

The WordPress plugin `teknologi-pp-rev-p2p-integration.php` keeps the many-to-many
Posts 2 Posts (P2P) connections of a post and of its PublishPress revision in step:

- a `p2p_other_query_vars` filter marks P2P queries as revision queries;
- `get_post_connection_instances` finds the registered connection types that have
  the post's type on their `from` or `to` side;
- on revision creation (`revisionary_created_revision_add_connected_posts`) the
  revision is connected to every post connected to the base post (forward sync);
- on revision approval (`revision_applied_update_connected_posts`) the base post's
  connections are replaced by the revision's (backward sync).

In both syncs, a new `contacts_to_projects` connection receives every
`content_roles` meta value of the connection it was copied from, in order.

Files:

- `wrappers.dfy` holds `Option`.
- `wordpress.dfy` holds the posts table, `get_post_type` and the truthiness of
  `_rvy_base_post_id`.
- `p2p.dfy` holds the P2P plugin as an abstract connection store. Class `P2P`
  has a link map `(type, from, to) -> connection id`, a `content_roles` table per
  connection id and the next id. Its methods are `get_posts` with
  `connected_items`, `connect`, `disconnect` and `p2p_add_meta`. What these
  promise is an assumption about the plugin, stated in the module's header comment.
- `discovery.dfy` holds the specification of type discovery as an
  order-preserving filter.
- `sync_spec.dfy` holds the relations `ForwardSynced` and `BackwardSynced`
  between the store before and after each handler. It also holds their building
  blocks (`ConnectedFrom`, `DisconnectedFrom`) and the properties proved from them.
- `integration.dfy` holds the filter and class `ConnectionSync`, whose methods
  are the handlers. Their loops mirror the source's nested `foreach` loops.

PHP details that the model makes explicit:

- `get_post_type` returns `false` for a missing post. Under PHP's loose `==`,
  `false` equals only the side types `""` and `"0"` (`Discovery.SideMatches`).
- `_rvy_base_post_id` counts as set only when present and non-zero
  (`WordPress.BaseRefIsSet`).
- `is_int($new_connection_id)` is the `Created` outcome of `connect`.
- A duplicate `connect` returns a `WP_Error`. It therefore adds no meta.

## Model

| member | source | states |
|---|---|---|
| RevP2PIntegration.OtherQueryVars | teknologi-pp-rev-p2p-integration.php:21-24 | the result has `is_revisions_query` set to true, has exactly the input's keys plus that one, and keeps every other key's value |
| RevP2PIntegration.ConnectionSync.PostConnectionInstances | teknologi-pp-rev-p2p-integration.php:313-334 | the loop returns `Discovered(registry, post type)` when the plugin is loaded, and the empty list otherwise |
| Discovery.DiscoveredMembers | teknologi-pp-rev-p2p-integration.php:320-330 | a type is discovered if and only if it is registered and its `to` or `from` side matches the post type |
| Discovery.DiscoveredPositions | teknologi-pp-rev-p2p-integration.php:320-330 | discovery reads the registry at strictly increasing positions, and those positions are exactly the ones whose type applies (order-preserving filter) |
| Discovery.DiscoveredDistinct | teknologi-pp-rev-p2p-integration.php:320-330 | discovered type names are distinct when the registry's are |
| Discovery.NameSetMembers | teknologi-pp-rev-p2p-integration.php:59 | a name is among the names of a type list if and only if some listed type carries it |
| PostsToPosts.NeighboursAreLinked | teknologi-pp-rev-p2p-integration.php:62-67 | the posts connected to p are exactly those linked to p in either direction |
| PostsToPosts.AdjacentIdsBelow | teknologi-pp-rev-p2p-integration.php:75 | every connection id `get_posts` reports has already been handed out |
| PostsToPosts.P2P.ConnectedPosts | teknologi-pp-rev-p2p-integration.php:62-67 | `get_posts` yields every link of the type at the post exactly once, without duplicates |
| PostsToPosts.P2P.Connect | teknologi-pp-rev-p2p-integration.php:71 | a duplicate yields an error and no change; otherwise one new link with the next id, and meta untouched |
| PostsToPosts.P2P.Disconnect | teknologi-pp-rev-p2p-integration.php:169 | the links between the two posts go, in both directions, with their meta; nothing else changes |
| PostsToPosts.P2P.AddMeta | teknologi-pp-rev-p2p-integration.php:78 | one value is appended to the connection's `content_roles`; every other connection's meta stays |
| RevP2PIntegration.ConnectionSync.CopyContentRoles | teknologi-pp-rev-p2p-integration.php:75-80 | the destination's `content_roles` become its old values followed by all the source's values, in order; no other meta and no link changes |
| RevP2PIntegration.ConnectionSync.ConnectCopyingRoles | teknologi-pp-rev-p2p-integration.php:71-80 | `connect` creates a link exactly when none existed in either direction, and a duplicate changes nothing; roles are copied only onto a created `contacts_to_projects` link (`ConnectedFrom`, whose new links join posts that were unlinked before) |
| SyncSpec.ConnectOneStep | teknologi-pp-rev-p2p-integration.php:71-80 | one connect, with roles copied onto a new `contacts_to_projects` link only, is connecting from that one entry |
| SyncSpec.ConnectedFromCompose | teknologi-pp-rev-p2p-integration.php:70-82 | connecting from a set of entries, then from one more, is connecting from their union |
| SyncSpec.NewLinkOrigin | teknologi-pp-rev-p2p-integration.php:70-82 | a link added over two connect steps has the type, starts at the connected post, joins it to a post it was not linked to before in either direction, and carries a source entry's copied roles |
| RevP2PIntegration.ConnectionSync.ConnectAll | teknologi-pp-rev-p2p-integration.php:70-82 | the inner connect loop connects from every listed entry: old links and meta stay, new links start at the post, and every listed post ends up linked |
| RevP2PIntegration.ConnectionSync.DisconnectAll | teknologi-pp-rev-p2p-integration.php:168-170 | the disconnect loop removes exactly the links between the post and the listed posts, with their meta |
| SyncSpec.DisconnectedFromStep | teknologi-pp-rev-p2p-integration.php:168-170 | disconnecting from a set of posts, then from one more, is disconnecting from their union |
| SyncSpec.DisconnectedAllAt | teknologi-pp-rev-p2p-integration.php:160-170 | disconnecting the base post from all its listed neighbours removes exactly its links of that type |
| RevP2PIntegration.ConnectionSync.ForwardSyncType | teknologi-pp-rev-p2p-integration.php:60-82 | one pass of the outer loop connects the revision to every entry of the base post's listing for that type |
| SyncSpec.ForwardNewLinkOrigin | teknologi-pp-rev-p2p-integration.php:59-83 | a link added by forward sync has a synced type, starts at the revision, joins it to a post it was not linked to before in either direction, and carries the copied roles of a base connection to the same post |
| SyncSpec.ForwardCompose | teknologi-pp-rev-p2p-integration.php:59-83 | forward sync over some types, then one more type, is forward sync over all of them |
| RevP2PIntegration.ConnectionSync.ForwardSyncTypes | teknologi-pp-rev-p2p-integration.php:59-83 | the outer loop performs forward sync over the names of all the discovered types |
| RevP2PIntegration.ConnectionSync.RevisionCreated | teknologi-pp-rev-p2p-integration.php:40-89 | no change when the revision or the base post does not resolve, `_rvy_base_post_id` is falsy, or P2P is inactive; otherwise `ForwardSynced` over the discovered types |
| SyncSpec.ForwardCopiesConnections | teknologi-pp-rev-p2p-integration.php:59-83 | after forward sync, the revision's posts under each synced type are its old ones plus all of the base post's |
| SyncSpec.ForwardKeepsOthers | teknologi-pp-rev-p2p-integration.php:59-83 | forward sync changes no link of an unsynced type, and no link that does not involve the revision |
| RevP2PIntegration.ConnectionSync.BackwardSyncType | teknologi-pp-rev-p2p-integration.php:150-185 | one pass of the outer loop, with both listings read first, is backward sync for that one type |
| SyncSpec.ReplacementOrigin | teknologi-pp-rev-p2p-integration.php:173-184 | a link added by backward sync starts at the base post and carries a revision connection's roles, or none if the delete removed that connection first |
| SyncSpec.ReplaceOneType | teknologi-pp-rev-p2p-integration.php:150-185 | reading both listings, disconnecting all base links, then connecting the revision's entries, is backward sync for that type |
| SyncSpec.BackwardLinksCompose | teknologi-pp-rev-p2p-integration.php:150-186 | after one more type of backward sync, every link is either an untouched old one or a new one from the base post with copied roles |
| SyncSpec.BackwardCompose | teknologi-pp-rev-p2p-integration.php:150-186 | backward sync over some types, then one more type, is backward sync over all of them |
| RevP2PIntegration.ConnectionSync.BackwardSyncTypes | teknologi-pp-rev-p2p-integration.php:150-186 | the outer loop performs backward sync over the names of all the discovered types |
| RevP2PIntegration.ConnectionSync.RevisionApplied | teknologi-pp-rev-p2p-integration.php:122-189 | no change when P2P is inactive, no revision is given, the base id is not positive, or the base post does not resolve; otherwise `BackwardSynced` over the discovered types |
| SyncSpec.BackwardReplacesConnections | teknologi-pp-rev-p2p-integration.php:150-186 | after backward sync, the base post's posts under each synced type equal the revision's from before the sync: a replacement, not a merge |
| SyncSpec.BackwardKeepsOthers | teknologi-pp-rev-p2p-integration.php:150-186 | backward sync changes no link of an unsynced type, and no link that does not involve the base post |

## Left out

- The `log` utility and every call to it (lines 87 and 124), the logging-only
  hooks, and the `add_action`/`add_filter` registrations. They are file I/O and
  host event wiring, and they change no connection.
- The internals of Posts 2 Posts and of WordPress. `connect`, `disconnect`,
  `get_posts`, `p2p_get_meta` and `p2p_add_meta` are modelled only through the
  assumptions stated in `p2p.dfy`.
  - `connect` refuses only a duplicate. Refusals for self-connections,
    cardinality limits or missing posts are not modelled.
  - `connect(a, b)` records the link from a to b. P2P's own resolution of a
    connection's direction from the post types is not modelled.
  - `get_posts` yields every link at the post. Its post-status and
    `suppress_filters` filtering is not modelled, and its order is left open.
- WordPress's `get_post`, `get_post_type` and `get_post_meta` are foreign
  lookups. They are modelled only as reads of the posts table
  (`WordPress.PostType`, `WordPress.BaseRefIsSet`). Their behaviour is assumed.
- `connect` is assumed to store no meta on a new connection. Meta that the
  plugin may add when it connects is not modelled. That covers a connection
  type's `data` and the defaults of its declared `fields`. A new
  `contacts_to_projects` connection therefore starts with no roles before the
  copied ones.
- `p2p_get_meta` is assumed to return every stored value in insertion order.
  `p2p_add_meta` is assumed to store its value exactly as given. WordPress's
  `add_metadata` unslashes the value and passes it through `sanitize_meta`, and
  neither step is modelled. Meta values are modelled as strings. The copy of
  every `content_roles` item, in order, holds under these assumptions.
- PHP's loose `==` between a non-empty string post type and a numeric string is
  modelled as plain string equality. Only the `false` case is modelled.
- Only the first post type of each side (`query_vars['post_type'][0]`) is
  recorded in `ConnectionType`. That is all the source reads.
- Query vars are a map. PHP array key order is not modelled.
- The `$revision` object of backward sync is modelled by its ID, as an
  `Option<int>`. `None` stands for a falsy `$revision`.
- The unused `$r = get_post(...)` at line 149 is not modelled.
- Meta keys other than `content_roles` are not modelled, because the
  integration reads and writes no other key.
- What happens when a plugin call throws midway (atomicity) is not modelled. The
  source does not catch anything.
- `_rvy_base_post_id` is modelled as an integer. WordPress stores it as a string,
  and its falsy values `""` and `"0"` are `None` and `Some(0)` here.
