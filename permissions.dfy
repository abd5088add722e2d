/**
 * The authorisation rule shared by menu items (`MenuItem.has_auth`) and pages
 * (`has_permission` inside `AdminApp.serve_page`): a resource either needs no
 * tag, or needs one tag that must occur in the caller's tag list.
 */
module Permissions {
  import opened Wrappers

  /** An authorisation tag such as "user" or "admin". */
  type Tag = string

  /** `auth_needed is None or auth_needed in auth`. */
  predicate Permits(authNeeded: Option<Tag>, auth: seq<Tag>)
  {
    authNeeded.None? || authNeeded.value in auth
  }

  /** A caller who holds every tag another caller holds is permitted at least as much. */
  lemma PermitsMonotone(authNeeded: Option<Tag>, fewer: seq<Tag>, more: seq<Tag>)
    requires forall t :: t in fewer ==> t in more
    ensures Permits(authNeeded, fewer) ==> Permits(authNeeded, more)
  {
  }

  /** The anonymous caller (no tags) is permitted exactly the public resources. */
  lemma PermitsAnonymous(authNeeded: Option<Tag>)
    ensures Permits(authNeeded, []) <==> authNeeded.None?
  {
  }
}
