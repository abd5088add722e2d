/**
 * Menu items (`MenuItem`) and the menu the application serves
 * (`AdminApp.serve_menu`). An item is shown to a caller when the caller's tags
 * permit it; `as_dict` renders an item with its permitted children, each
 * rendered recursively with the same tags.
 */
module Menu {
  import opened Wrappers
  import opened Permissions

  datatype MenuItem = MenuItem(name: string, url: string, icon: Option<string>, authNeeded: Option<Tag>, children: seq<MenuItem>)

  /** The dictionary `as_dict` produces: `name`, `path`, `icon`, `component`, `children`. */
  datatype MenuEntry = MenuEntry(name: string, path: string, icon: Option<string>, component: string, children: seq<MenuEntry>)

  const Component := "./index"

  /** `has_auth`. */
  predicate HasAuth(item: MenuItem, auth: seq<Tag>)
  {
    Permits(item.authNeeded, auth)
  }

  /** `[x for x in items if x.has_auth(auth)]`. */
  function FilterAuth(items: seq<MenuItem>, auth: seq<Tag>): (kept: seq<MenuItem>)
    ensures |kept| <= |items|
    ensures forall x :: x in kept ==> x in items && HasAuth(x, auth)
  {
    if items == [] then []
    else if HasAuth(items[0], auth) then [items[0]] + FilterAuth(items[1..], auth)
    else FilterAuth(items[1..], auth)
  }

  /** `as_dict(auth)`. */
  function AsDict(item: MenuItem, auth: seq<Tag>): (e: MenuEntry)
    ensures e.name == item.name && e.path == item.url && e.icon == item.icon && e.component == Component
    ensures |e.children| == |FilterAuth(item.children, auth)|
  {
    var kept := FilterAuth(item.children, auth);
    MenuEntry(item.name, item.url, item.icon, Component,
      seq(|kept|, k requires 0 <= k < |kept| => assert kept[k] in kept; AsDict(kept[k], auth)))
  }

  /** `[x.as_dict(auth) for x in items]`. */
  function AsDictAll(items: seq<MenuItem>, auth: seq<Tag>): (es: seq<MenuEntry>)
  {
    seq(|items|, k requires 0 <= k < |items| => AsDict(items[k], auth))
  }

  /** `serve_menu` as written: the top level is filtered by the caller's tags,
      but every item is rendered with `as_dict()`, i.e. with no tags. */
  function ServeMenu(menu: seq<MenuItem>, auth: seq<Tag>): seq<MenuEntry>
  {
    AsDictAll(FilterAuth(menu, auth), [])
  }

  /** `serve_menu` as evidently intended: the caller's tags at every depth. */
  function ServeMenuIntended(menu: seq<MenuItem>, auth: seq<Tag>): seq<MenuEntry>
  {
    AsDictAll(FilterAuth(menu, auth), auth)
  }

  // ---------------------------------------------------------------------------
  // Filtering keeps exactly the permitted items, in their original order.

  /** `sub` is obtained from `s` by deleting some elements. */
  ghost predicate IsSubsequence<T>(sub: seq<T>, s: seq<T>)
    decreases |s|
  {
    if sub == [] then true
    else if s == [] then false
    else if sub[0] == s[0] then IsSubsequence(sub[1..], s[1..])
    else IsSubsequence(sub, s[1..])
  }

  /** Every item of `items` that the tags permit is kept. */
  lemma {:induction false} FilterAuthComplete(items: seq<MenuItem>, auth: seq<Tag>, x: MenuItem)
    requires x in items && HasAuth(x, auth)
    ensures x in FilterAuth(items, auth)
  {
    if items[0] != x {
      FilterAuthComplete(items[1..], auth, x);
    }
  }

  /** The kept items appear in the order they had. */
  lemma {:induction false} FilterAuthOrdered(items: seq<MenuItem>, auth: seq<Tag>)
    ensures IsSubsequence(FilterAuth(items, auth), items)
  {
    if items != [] {
      FilterAuthOrdered(items[1..], auth);
      var rest := FilterAuth(items[1..], auth);
      if HasAuth(items[0], auth) {
        assert ([items[0]] + rest)[1..] == rest;
      } else if rest != [] {
        // the first kept item is permitted, so it is not the dropped head
        assert rest[0] in rest;
      }
    }
  }

  /** Each child is kept exactly as many times as it occurs when the tags
      permit it, and not at all otherwise. */
  lemma {:induction false} FilterAuthCounts(items: seq<MenuItem>, auth: seq<Tag>, x: MenuItem)
    ensures multiset(FilterAuth(items, auth))[x] == if HasAuth(x, auth) then multiset(items)[x] else 0
  {
    if items != [] {
      FilterAuthCounts(items[1..], auth, x);
      assert items == [items[0]] + items[1..];
    }
  }

  /** When every item is permitted nothing is filtered out. */
  lemma {:induction false} FilterAuthAllPermitted(items: seq<MenuItem>, auth: seq<Tag>)
    requires forall k :: 0 <= k < |items| ==> HasAuth(items[k], auth)
    ensures FilterAuth(items, auth) == items
  {
    if items != [] {
      FilterAuthAllPermitted(items[1..], auth);
    }
  }

  // ---------------------------------------------------------------------------
  // The rendered menu hides exactly the non-permitted subtrees, at every depth.

  /** The item tree with every child the tags do not permit removed, recursively. */
  function Prune(item: MenuItem, auth: seq<Tag>): MenuItem
  {
    var kept := FilterAuth(item.children, auth);
    item.(children := seq(|kept|, k requires 0 <= k < |kept| => assert kept[k] in kept; Prune(kept[k], auth)))
  }

  /** Rendering without any filtering. */
  function Render(item: MenuItem): MenuEntry
  {
    MenuEntry(item.name, item.url, item.icon, Component,
      seq(|item.children|, k requires 0 <= k < |item.children| => Render(item.children[k])))
  }

  /** Every item below the root of the tree is permitted. */
  predicate DescendantsPermitted(item: MenuItem, auth: seq<Tag>)
  {
    forall k :: 0 <= k < |item.children| ==>
      HasAuth(item.children[k], auth) && DescendantsPermitted(item.children[k], auth)
  }

  /** `as_dict(auth)` renders the pruned tree. */
  lemma {:induction false} AsDictRendersPruned(item: MenuItem, auth: seq<Tag>)
    ensures AsDict(item, auth) == Render(Prune(item, auth))
  {
    var kept := FilterAuth(item.children, auth);
    forall k | 0 <= k < |kept|
      ensures AsDict(kept[k], auth) == Render(Prune(kept[k], auth))
    {
      assert kept[k] in kept;
      AsDictRendersPruned(kept[k], auth);
    }
  }

  /** Pruning leaves only permitted items below the root, at every depth. */
  lemma {:induction false} PruneSound(item: MenuItem, auth: seq<Tag>)
    ensures DescendantsPermitted(Prune(item, auth), auth)
  {
    var kept := FilterAuth(item.children, auth);
    forall k | 0 <= k < |kept|
      ensures HasAuth(Prune(kept[k], auth), auth) && DescendantsPermitted(Prune(kept[k], auth), auth)
    {
      assert kept[k] in kept;
      PruneSound(kept[k], auth);
    }
  }

  /** A tree whose items are all permitted is rendered in full. */
  lemma {:induction false} PrunePermittedIsIdentity(item: MenuItem, auth: seq<Tag>)
    requires DescendantsPermitted(item, auth)
    ensures Prune(item, auth) == item
  {
    FilterAuthAllPermitted(item.children, auth);
    forall k | 0 <= k < |item.children|
      ensures Prune(item.children[k], auth) == item.children[k]
    {
      PrunePermittedIsIdentity(item.children[k], auth);
    }
  }

  // ---------------------------------------------------------------------------
  // serve_menu

  /** As written, every nested entry is rendered as the anonymous caller would
      see it, whatever the caller's tags: the top level is the caller's
      permitted items, and below it only public items survive. */
  lemma ServeMenuNestedIsAnonymous(menu: seq<MenuItem>, auth: seq<Tag>)
    ensures var top := FilterAuth(menu, auth);
      var served := ServeMenu(menu, auth);
      && |served| == |top|
      && forall k :: 0 <= k < |top| ==> served[k] == Render(Prune(top[k], []))
  {
    var top := FilterAuth(menu, auth);
    forall k | 0 <= k < |top|
      ensures ServeMenu(menu, auth)[k] == Render(Prune(top[k], []))
    {
      AsDictRendersPruned(top[k], []);
    }
  }

  /** The discrepancy: an administrator does not see a nested item that
      requires the "admin" tag, although `as_dict` would show it. */
  lemma ServeMenuHidesNestedAdminItem()
    ensures var child := MenuItem("Users", "/users", None, Some("admin"), []);
      var parent := MenuItem("Settings", "/settings", None, None, [child]);
      && ServeMenu([parent], ["admin"])[0].children == []
      && ServeMenuIntended([parent], ["admin"])[0].children == [Render(child)]
  {
    var child := MenuItem("Users", "/users", None, Some("admin"), []);
    var parent := MenuItem("Settings", "/settings", None, None, [child]);
    assert FilterAuth([parent], ["admin"]) == [parent];
    assert FilterAuth([child], ["admin"]) == [child];
    assert FilterAuth([child], []) == [];
    assert AsDict(child, ["admin"]) == Render(child);
  }

  /** Corrected: the served menu is the pruned tree for the caller's tags, so
      every entry at every depth is one the caller is permitted to see, and a
      caller permitted everything sees the whole menu. */
  lemma ServeMenuIntendedShowsPermitted(menu: seq<MenuItem>, auth: seq<Tag>)
    ensures var top := FilterAuth(menu, auth);
      var served := ServeMenuIntended(menu, auth);
      && |served| == |top|
      && forall k :: 0 <= k < |top| ==>
           && HasAuth(top[k], auth)
           && DescendantsPermitted(Prune(top[k], auth), auth)
           && served[k] == Render(Prune(top[k], auth))
  {
    var top := FilterAuth(menu, auth);
    forall k | 0 <= k < |top|
      ensures DescendantsPermitted(Prune(top[k], auth), auth)
      ensures ServeMenuIntended(menu, auth)[k] == Render(Prune(top[k], auth))
    {
      AsDictRendersPruned(top[k], auth);
      PruneSound(top[k], auth);
    }
  }

  /** Corrected: a permitted item whose subtree is all permitted is served in full. */
  lemma ServeMenuIntendedComplete(menu: seq<MenuItem>, auth: seq<Tag>, k: nat)
    requires k < |FilterAuth(menu, auth)|
    requires DescendantsPermitted(FilterAuth(menu, auth)[k], auth)
    ensures ServeMenuIntended(menu, auth)[k] == Render(FilterAuth(menu, auth)[k])
  {
    var item := FilterAuth(menu, auth)[k];
    AsDictRendersPruned(item, auth);
    PrunePermittedIsIdentity(item, auth);
  }
}
