# pynextui admin shell: callback registry, menu filtering, page resolution

A Dafny model of the logic inside `pynextui/d.py`, the application shell of a
low-code admin-panel framework. The framework serves a single-page frontend
and answers its JSON requests. The model covers four pieces of that shell:

- **Callback registry** (`CallbackRegistryType`, module `Callbacks`). Every
  backend function placed in a page gets an opaque identifier. The frontend
  posts the identifier back to have the function called. The registry keeps
  two dictionaries, identifier → callback and callback → identifier. The model
  keeps them as two `map` fields of the class `CallbackRegistryType`. A pure
  `Registry` value and the functions `Register` and `Invoke` specify the
  methods, and the lemmas about the registry are proved on those functions.
  A callback is represented by its identity and its arity; the arity stands
  for `len(signature(f).parameters)`. `uuid.uuid1()` is time-based, so it is
  modelled as the decimal rendering of a clock that ticks once per identifier
  issued (module `Uuids`). Making a callback is described by the `Invocation`
  it performs: which callback, on which arguments. `handle_page_action` takes
  the callbacks' behaviour as a function parameter `run`.
- **Menu authorisation** (`MenuItem.has_auth`, `MenuItem.as_dict`,
  `AdminApp.serve_menu`, module `Menu`). The tag rule is shared with pages
  (module `Permissions`). `as_dict(auth)` is proved to render exactly the
  tree pruned of non-permitted children, at every depth and in order.
- **Page resolution** (`AdminApp.serve_page`, modules `Text` and `Pages`).
  Python's `str.split('/')` is modelled together with its inverse `join`. The
  outcome of resolution is `Exact(key)`, `Sub(base, seg)`, `Forbidden` ("403")
  or `NotFound` ("404").
- **Uploaded file name** (`AdminApp.uploaded_file_name`, module `Uploads`):
  the lookup by "file_name", then "response", then recursion into "file".

In the sub-path case `serve_page` passes only the second segment
(`url_parts[1]`, pynextui/d.py:196) to the page; later segments are dropped,
so for "a/x/y" the page "/a" receives "x". `Pages.SubComplete` and
`Pages.SubPathExamples` state this.

## Model

| member | source | states |
|---|---|---|
| `Callbacks.CallbackRegistryType.constructor` | pynextui/d.py:29-31 | the registry starts with both dictionaries empty, and consistent |
| `Callbacks.CallbackRegistryType.UuidForCallback` | pynextui/d.py:32-41 | `None` gives `None` and changes nothing; a known callback gets its cached id and nothing changes; a new callback gets an id not in use, entered in both maps; the maps stay mutual inverses |
| `Callbacks.CallbackRegistryType.MakeCallback` | pynextui/d.py:42-49 | reads only; the call made is exactly the one `Invoke` specifies |
| `Callbacks.Invoke` | pynextui/d.py:42-49 | unknown id gives `None`; a known id calls the stored callback on a prefix of the arguments whose length is the smaller of the argument count and the arity |
| `Callbacks.Truncate` | pynextui/d.py:46 | `args[:n]` is a prefix of `args` of length `min(len(args), n)` |
| `Callbacks.EmptyRegistryConsistent` | pynextui/d.py:30-31 | the empty registry satisfies the registry invariant |
| `Callbacks.NextUuidIsFresh` | pynextui/d.py:38 | in a consistent registry the next identifier issued is not yet in use |
| `Callbacks.RegisterKeepsConsistent` | pynextui/d.py:32-41 | registration keeps the two maps mutual inverses and every id issued by the clock |
| `Callbacks.RegisterNone` | pynextui/d.py:33-34 | registering `None` returns `None` and leaves the registry as it was |
| `Callbacks.RegisterThenLookUp` | pynextui/d.py:35-41 | after registering a callback, new or known, its id maps to it and it maps to its id |
| `Callbacks.RegisterCached` | pynextui/d.py:35-36 | a known callback gets its cached id and the registry is unchanged |
| `Callbacks.RegisterFresh` | pynextui/d.py:37-41 | a new callback gets an id unused before; both maps gain exactly that one entry |
| `Callbacks.RegisterIdempotent` | pynextui/d.py:35-36 | a second registration of the same callback returns the same id and changes nothing |
| `Callbacks.RegisterKeepsEntries` | pynextui/d.py:38-41 | no entry is ever evicted or rebound |
| `Callbacks.DistinctCallbacksDistinctUuids` | pynextui/d.py:30-31 | in a consistent registry distinct callbacks have distinct ids |
| `Callbacks.RegisterTwoDistinct` | pynextui/d.py:32-41 | registering two distinct callbacks in turn yields two distinct ids |
| `Callbacks.InvokeRegistered` | pynextui/d.py:43-46 | invoking the id a callback was registered under calls that callback on its first `arity` arguments |
| `Callbacks.InvokeIgnoresExtraArgs` | pynextui/d.py:45-46 | arguments beyond the arity never change the call |
| `Callbacks.HandlePageAction` | pynextui/d.py:202-210 | unknown id gives "No Action" (204); a known id runs the callback on the truncated arguments (missing `args` read as `[]`), and a `None` response also gives "No Action" |
| `Callbacks.PageActionDefaultArgs` | pynextui/d.py:204-205 | a request without `args` is answered as one with `args == []` |
| `Callbacks.ActionError` | pynextui/d.py:207-210 | an error element exactly for "No Action", with title "No Action" and error type "204" |
| `Uuids.Decimal` | pynextui/d.py:38 | the stand-in identifier (not the 36-character hex form of `uuid1()`) is a non-empty string of decimal digits, one digit exactly for clock readings below ten |
| `Uuids.DecimalInjective` | pynextui/d.py:38 | different clock readings have different renderings |
| `Uuids.UuidAtInjective` | pynextui/d.py:38 | identifiers issued at different times differ |
| `Permissions.PermitsMonotone` | pynextui/d.py:69-73 | a caller holding every tag of another caller is permitted at least as much |
| `Permissions.PermitsAnonymous` | pynextui/d.py:69-73 | with no tags, exactly the items and pages without `auth_needed` are permitted |
| `Menu.FilterAuth` | pynextui/d.py:80 | the kept children are among the children and each passes `has_auth` |
| `Menu.FilterAuthComplete` | pynextui/d.py:80 | every child passing `has_auth` is kept |
| `Menu.FilterAuthCounts` | pynextui/d.py:80 | each child is kept exactly as often as it occurs if it passes `has_auth`, and never otherwise |
| `Menu.FilterAuthOrdered` | pynextui/d.py:80 | the kept children are a subsequence of the children: original order |
| `Menu.FilterAuthAllPermitted` | pynextui/d.py:80 | when every child passes, the list is kept whole |
| `Menu.AsDict` | pynextui/d.py:74-81 | an entry carries the item's name, url as path, icon and component "./index", and one child per permitted child |
| `Menu.AsDictRendersPruned` | pynextui/d.py:74-81 | `as_dict(auth)` is the full rendering of the item tree pruned, at every depth, of the children `auth` does not permit |
| `Menu.PruneSound` | pynextui/d.py:80 | every item below the root of the pruned tree is permitted |
| `Menu.PrunePermittedIsIdentity` | pynextui/d.py:80 | a tree whose items are all permitted is not pruned at all |
| `Menu.ServeMenuNestedIsAnonymous` | pynextui/d.py:219-223 | as written, the top level is filtered by the caller's tags and each entry is the tree pruned for the empty tag list |
| `Menu.ServeMenuHidesNestedAdminItem` | pynextui/d.py:222 | an admin does not see a nested item needing "admin"; the corrected menu shows it |
| `Menu.ServeMenuIntendedShowsPermitted` | pynextui/d.py:219-223 | corrected: every entry served, at every depth, is permitted to the caller, and is the item pruned for the caller's tags |
| `Menu.ServeMenuIntendedComplete` | pynextui/d.py:219-223 | corrected: a permitted top-level item whose subtree is all permitted is served in full |
| `Text.Split` | pynextui/d.py:185 | `split` always yields at least one piece |
| `Text.JoinSplit` | pynextui/d.py:185 | joining the pieces with "/" gives back the path |
| `Text.SplitPiecesSeparatorFree` | pynextui/d.py:185 | no piece contains "/" |
| `Text.SplitSeparatorFree` | pynextui/d.py:185 | a path without "/" is one piece |
| `Text.SplitAtFirstSeparator` | pynextui/d.py:185 | the pieces of `a/b` with `a` slash-free are `a` followed by the pieces of `b` |
| `Pages.PageError` | pynextui/d.py:193-200 | an error element exactly for Forbidden ("403") and NotFound ("404") |
| `Pages.ExactMatchWins` | pynextui/d.py:189-193 | a page under "/" + url is chosen before any sub-path match: served if permitted, else "403" |
| `Pages.SubShape` | pynextui/d.py:185-196 | a sub-path answer needs no page under the full path and a permitted page under "/" + first segment; the sub-path is the second segment, which is followed by the end of the path or "/" |
| `Pages.SubComplete` | pynextui/d.py:185-196 | a path `head/seg[/...]` with no page under the full path and a permitted page "/head" is answered by "/head" with sub-path `seg`, whatever follows |
| `Pages.SingleSegmentNeedsExactPage` | pynextui/d.py:194-200 | a path without "/" and with no page under it is not found |
| `Pages.NotFoundIndependentOfTags` | pynextui/d.py:189-200 | whether a path is found does not depend on the caller's tags |
| `Pages.ForbiddenNeedsMissingTag` | pynextui/d.py:182-198 | "403" only when the matched page (under "/" + url if registered, else under "/" + first segment) needs a tag the caller lacks |
| `Pages.SubForbidden` | pynextui/d.py:194-198 | a path `head/seg[/...]` with no page under the full path, whose page "/head" needs a tag the caller lacks, is answered "403" |
| `Pages.MultiSegmentNotFound` | pynextui/d.py:194-200 | a path `head/rest` with no page under the full path nor under "/head" is not found |
| `Pages.MoreTagsNoLessAccess` | pynextui/d.py:182-198 | more tags can only turn "403" into the page; nothing else changes |
| `Pages.SubPathExamples` | pynextui/d.py:185-196 | with a page "/a": "a/x" and "a/x/y" give "/a" with sub-path "x", "a/" gives "/a" with "" |
| `Pages.NotFoundExample` | pynextui/d.py:199-200 | with pages "/a" and "/b", "c" is not found |
| `Pages.AuthExamples` | pynextui/d.py:182-193 | a page needing "admin" is refused to a caller tagged "user" and served to one tagged "admin" |
| `Uploads.FileNameFirst` | pynextui/d.py:243-244 | "file_name" wins whatever else is present |
| `Uploads.ResponseSecond` | pynextui/d.py:245-246 | without "file_name", "response" wins |
| `Uploads.NoKeysMissing` | pynextui/d.py:249-250 | with none of the three keys the result is `None` |
| `Uploads.WrapInFileTransparent` | pynextui/d.py:247-248 | nesting an upload any number of times under "file" does not change the name found |
| `Uploads.OnlyKeysMatter` | pynextui/d.py:242-250 | keys other than the three can be dropped at every depth without changing the result |
| `Uploads.ObjectsNeverRaise` | pynextui/d.py:242-250 | objects nested only through "file" never raise |
| `Uploads.StringUnderFileRaises` | pynextui/d.py:243-248 | a string under "file" containing "file" raises `TypeError`, as Python's substring `in` followed by a subscript does |

## Findings

| source | as written | input that shows it | evidently intended | confidence | as-written member | corrected member |
|---|---|---|---|---|---|---|
| pynextui/d.py:222 | `serve_menu` renders each top-level item with `x.as_dict()`, so nested children are filtered against the empty tag list | menu `[Settings (public) with child Users (needs "admin")]`, caller tags `["admin"]`: Users is not served | `x.as_dict(token['auth'])`, filtering every depth by the caller's tags, as `as_dict`'s own recursion does | medium, not executed | `Menu.ServeMenuHidesNestedAdminItem` | `Menu.ServeMenuIntendedShowsPermitted` |

## Left out

- Page building (`Page.as_list`) and element serialisation (`Element.as_dict`): `page.py` and `element.py` are not part of this model. The resolution stops at which page is served with which sub-path; query parameters are not modelled.
- JWT encoding and decoding (`LoggedInUser`, `current_user`): a foreign library; the caller's tag list is an input.
- `handle_login_action` and `LoginFailed`: the login handlers are user code behind a JWT token.
- `config`, `serve_settings`, route registration, `jsonify`, static files, the favicon and the SPA fallback: framework glue and I/O.
- File upload writing, `uploaded_file_location`, folder creation and `inspect.stack()`: filesystem I/O.
- `inspect.signature` and `uuid.uuid1()`: replaced by the arity field and the clock-based identifier source; the identifiers are decimal strings, not the 36-character hex form.
- Callbacks.HandlePageAction: a request without `cb_uuid` raises `KeyError` in Python; the model's request always carries it.
- Callbacks.HandlePageAction: the model's `args` is absent or a list. A string `args` is sliced like a list and its characters are passed as separate arguments; `null`, a number or an object raises (`TypeError`, or `KeyError` for an object on Python 3.12 and later). A `cb_uuid` that is a list or an object is unhashable and raises `TypeError` at the membership test; the model's string identifier cannot express it.
- Callbacks.Invoke: what a callback computes is not modelled, nor whether the call itself succeeds. The arity counts every declared parameter, keyword-only and `**kwargs` ones included, so a call can raise `TypeError` with too many positional arguments (`def f(a, *, k=1)` called with two arguments) as well as with too few when the missing parameters have no defaults; the model describes the call made.
- Callbacks.CallbackRegistryType: the two dictionaries are class attributes, shared by every instance; the model gives each instance its own maps, which agrees with the program because it creates a single instance, `callbackRegistry`.
- Uploads.UploadedFileName: only strings and objects are modelled as values; lists, numbers and `null` under "file" are not.
- Concurrent registration: the dictionaries are mutated without locking; the model is sequential.
- The Windows event-loop policy and the demo application.
