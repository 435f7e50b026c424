# meta1 prefix ownership and peer resolution

A Dafny model of the prefix logic of the OpenIO SDS meta1 server
(`meta1v2/meta1_server.c`). The container namespace is split into 65536
prefixes, each the first two bytes of a container id. The meta1 backend
keeps a directory that maps each prefix to its peer list. On top of that
directory the server:

- resolves a base name (4 hex digits plus the `meta1` service type) to the
  peers that serve it, without the local address (`_get_peers`,
  `filter_urls`, `filter_urls_and_clean`);
- reloads the directory. After a reload that is not the initial one, it
  leaves the election of every updated prefix it no longer manages
  (`_reload_prefixes`, `_task_reload_prefixes`);
- at startup, retries the initial reload until it succeeds, and only then
  registers its periodic tasks (`_post_config`).

Modules, leaves first:

- `Common` (`common.dfy`): bytes, `Option`/`Result`, error codes, `SqlxName`.
- `Ascii` (`ascii.dfy`): the GLib ASCII helpers. These are case folding,
  `g_ascii_strcasecmp`, `g_str_has_prefix` and hex digits.
- `PeerFilter` (`peer_filter.dfy`): `filter_urls` and `filter_urls_and_clean`
  as loop methods, proved against the reference functions `Without` and
  `Filtered`.
- `Prefixes` (`prefixes.dfy`): prefixes, their `%02X%02X` names and how they
  decode, and the backend's prefix set (a class whose directory each load
  replaces).
- `Election` (`election.dfy`): the election manager as a log of
  `election_exit` calls, and `LostPrefixExits`, the exits a reload owes.
- `Meta1Server` (`meta1_server.dfy`): the `Server` class with
  `ReloadPrefixes`, `TaskReloadPrefixes`, `GetPeers` and `PostConfig`. It also
  holds the pure functions these are proved against (`CheckRequest`, `Resolve`,
  `FirstLoaded`) and the lemmas about them.

Collaborators whose code is not part of this model take their answers as
parameters:

- `meta1_prefixes_load` is modelled by a `LoadOutcome`: an error, or a new
  directory plus the list of updated prefixes.
- `election_exit` appends its name to `ElectionManager.exits`. Which names it
  answers with an error is fixed when the manager is built.
- The directory service's answer to a `nocache` refresh is a parameter of
  `GetPeers`.
- The successive answers the startup loop sees are a parameter of `PostConfig`.

Two behaviours of the code worth stating plainly:

- **Duplicates.** The loop at `meta1_server.c:137-142` drops every
  case-insensitive match of the local address, not only the first.
  `PeerFilter.Without` does the same, and `DuplicateSelfDropped` shows it on
  a concrete list.
- **Which prefixes get an exit.** The exit loop (lines 74-91) walks the
  loader's updated list and exits every entry not managed after the load,
  once per occurrence, in list order. It does not compare the old and new
  managed sets itself. `LostPrefixExits` models this.

## Model

| member | source | states |
|---|---|---|
| `Ascii.EqualsIgnoreCaseIff` | meta1v2/meta1_server.c:138 | A peer matches the local address exactly when both have the same length and agree character by character after ASCII lower-casing. |
| `PeerFilter.FilterUrls` | meta1v2/meta1_server.c:132-153 | Returns NULL exactly when no entry matches `avoid`. Otherwise it returns the input with every matching entry dropped, which may be the empty list. |
| `PeerFilter.FilterUrlsAndClean` | meta1v2/meta1_server.c:155-163 | A NULL source gives NULL. Any other source gives exactly what `filter_urls` gives. |
| `PeerFilter.WithoutConcat` | meta1v2/meta1_server.c:137-142 | Filtering distributes over concatenation, so the kept entries stay in their original order. |
| `PeerFilter.WithoutMembers` | meta1v2/meta1_server.c:137-142 | An entry is in the output exactly when it is in the input and does not match `avoid`. |
| `PeerFilter.WithoutLength` | meta1v2/meta1_server.c:137-142 | The output is shorter than the input by the number of matching entries, so every duplicate of the local address is dropped. |
| `PeerFilter.WithoutUnmentioned` | meta1v2/meta1_server.c:137-142 | A list without the local address is copied unchanged. |
| `PeerFilter.FilteredEmptyIff` | meta1v2/meta1_server.c:144-152 | The result is the non-NULL empty list exactly when the input is non-empty and every entry is the local address. |
| `PeerFilter.DuplicateSelfDropped` | meta1v2/meta1_server.c:137-142 | On a concrete list, the local address written twice in different cases is dropped both times, and the other peers keep their order. |
| `Prefixes.DecodeFormat` | meta1v2/meta1_server.c:179-185 | A prefix's `%02X%02X` name passes the 4-hex-digit check and decodes back to the same two bytes. |
| `Prefixes.FormatDecode` | meta1v2/meta1_server.c:179-185 | Decoding a valid base name and printing the result gives back the name in upper case. |
| `Prefixes.FormatInjective` | meta1v2/meta1_server.c:76 | Two prefixes get the same election base name exactly when they are equal. |
| `Prefixes.PrefixesSet.Load` | meta1v2/meta1_server.c:58-64 | A failed load returns the loader's error and keeps the directory. A successful one installs the new directory and hands back the updated prefixes. |
| `Election.ElectionManager.Exit` | meta1v2/meta1_server.c:84-85 | Every call is logged in order. It returns the manager's error for that name, if it has one. |
| `Election.LostPrefixExitsConcat` | meta1v2/meta1_server.c:74-91 | Exits follow the order of the updated-prefix list. |
| `Election.LostPrefixExitsCount` | meta1v2/meta1_server.c:74-91 | A prefix still managed after the load gets no exit. Any other prefix gets one exit for each time it appears in the updated list. |
| `Election.LostPrefixExitsMembers` | meta1v2/meta1_server.c:77-90 | A name is exited exactly when it is `{hex(p), meta1, ns}` for some updated prefix `p` that is no longer managed. |
| `Election.LostPrefixExitsWellFormed` | meta1v2/meta1_server.c:76-84 | Every exit names a 4-hex-digit base, the `meta1` type and the local namespace. |
| `Meta1Server.ReloadError` | meta1v2/meta1_server.c:60 | A load error keeps its code, and its message is `Reload error: ` followed by the loader's original message. |
| `Meta1Server.CheckRequest` | meta1v2/meta1_server.c:172-177 | The request passes exactly when the name and result slot are present, the type starts with `meta1`, and the base is 4 hex digits. A missing name or slot gives INTERNAL_ERROR. Every other failure gives BAD_REQUEST, with the message `Invalid type name` exactly when the type check failed, so the type is checked before the base. |
| `Meta1Server.ResolveOutcome` | meta1v2/meta1_server.c:190-194 | Resolution fails with CONTAINER_NOTFOUND exactly when the prefix is unmapped or its peers lack the local address. On success it returns every other peer and never the local one. |
| `Meta1Server.LostPrefixUnresolvable` | meta1v2/meta1_server.c:83-85 | An exited name is itself a valid meta1 request, and that request fails with CONTAINER_NOTFOUND against the new directory. |
| `Meta1Server.FirstLoaded` | meta1v2/meta1_server.c:216-229 | Finds the first successful outcome, or none. Every outcome before it failed. |
| `Meta1Server.LostPrefixScenario` | meta1v2/meta1_server.c:74-91 | Concrete case: `10.0.0.1:6000` resolves ABCD to `[10.0.0.2:6000]`. After a reload that drops it, exactly `{ABCD, meta1, NS1}` is exited and ABCD no longer resolves. |
| `Meta1Server.DecodeContainerId` | meta1v2/meta1_server.c:179-185 | Builds a 32-byte container id. Byte 0 is the value of hex digits 0-1, byte 1 is the value of digits 2-3, and every other byte is 0. |
| `Meta1Server.Server.ReloadPrefixes` | meta1v2/meta1_server.c:50-98 | A failed load returns the prefixed error, keeps the directory and issues no exits. A successful load installs the directory and returns success whatever the exits answered. It issues no exits when `init` is set, and otherwise exactly `LostPrefixExits` of the updated list against the new directory. |
| `Meta1Server.Server.TaskReloadPrefixes` | meta1v2/meta1_server.c:100-109 | Runs a non-initial reload and drops its error. Its effect on the directory and the exit log is that reload's. |
| `Meta1Server.Server.GetPeers` | meta1v2/meta1_server.c:165-195 | An invalid request returns `CheckRequest`'s error, with no reload and no lookup. Otherwise it reloads when `nocache` is set, then returns `Resolve` on the container's prefix. A failed refresh leaves the outcome what it would have been without `nocache`. |
| `Meta1Server.Server.PostConfig` | meta1v2/meta1_server.c:216-238 | Becomes ready exactly when some initial load succeeds. It then installs that load's directory after exactly (first success + 1) attempts and registers the four periodic tasks in order. It issues no exits. Until then the directory and the task list are untouched. |

## Left out

- Timing: the `sleep(CONNECT_RETRY_DELAY)` between startup attempts, and the
  scheduler that fires the registered tasks on their cadences. The model only
  records what is registered and in what order.
- Meta1Server.Server.PostConfig: the source retries without bound. The model
  consumes a finite sequence of load outcomes and reports "not ready" when
  they run out without a success.
- The bootstrap part of `_post_config` (lines 198-214) and `main`
  (lines 243-254). These are `sqlx_service_extras_init`,
  `meta1_backend_init` and dispatcher registration, which are process setup
  and foreign calls.
- `_task_reload_policies` (lines 111-130): it only hands a configuration
  string between two collaborators that are not part of this model.
- The internals of `meta1_prefixes_load`, `meta1_prefixes_is_managed`,
  `meta1_prefixes_get_peers`, `election_exit` and `metautils_str_ishexa` are
  not part of this model. These modelling choices stand in for them:
  - a load either fails and keeps the directory, or installs a new one;
  - "managed" means the local address is in the prefix's peer list, ignoring
    ASCII case, as `filter_urls` compares;
  - the 4-hex check means exactly four hex digits.
- A NULL `updated_prefixes` on a successful load is modelled as the empty
  list. Both lead to no exits.
- Reload idempotence (a second load of the same topology issues no exits)
  depends on how the loader builds its updated list, which is not part of
  this model. `ReloadPrefixes` does guarantee that an empty updated list yields no exits.
- Values and sizes taken from files that are not part of this model: the
  numeric values of the CODE_* error codes (kept symbolic), and the size of
  `container_id_t` (taken as 32 bytes).
- The INTERNAL_ERROR message embeds the function, file and line. It is
  modelled as the constant `BUG`.
- A NULL `n->type` or `n->base` string is not modelled. Strings are always
  present.
- Memory management (`g_strdup`, `g_strfreev`, `g_array_free`) and logging
  have no behavioural content.
- Concurrent resolves during a reload, and the atomicity of the directory
  swap. The model is sequential.
- `rawx/main.go`, `client/c/tools/gs_tools.h` and
  `python/oio/index/server_db.py` are not part of this model. They are a
  command-line front end, declarations only, and a thin database wrapper.
