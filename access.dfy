/**
 * The two admin decisions of the site. A visitor either has no session,
 * or has one and the `profiles` row lookup for its user answered with a
 * role (or with none) and possibly an error flag.
 */
module Access {
  import opened Wrappers

  const AdminRole := "admin"

  /** Answer of the `profiles.role` lookup for the session's user. */
  datatype RoleLookup = RoleLookup(failed: bool, role: Option<string>)

  /** `None` when `getSession()` yields no session; otherwise the lookup made for it. */
  type Session = Option<RoleLookup>

  /** The gallery's `isAdmin`: the role is "admin"; the lookup's error is not consulted. */
  predicate GalleryAdmin(session: Session): (admin: bool)
    ensures admin ==> session.Some? && session.value.role == Some(AdminRole)
  {
    session.Some? && session.value.role == Some(AdminRole)
  }

  /** The upload page's `hasAccess`: a session, a lookup without error, and the role "admin". */
  predicate UploadAccess(session: Session): (granted: bool)
    ensures granted ==> session.Some? && !session.value.failed && session.value.role == Some(AdminRole)
    ensures granted ==> GalleryAdmin(session)
  {
    session.Some? && !session.value.failed && session.value.role == Some(AdminRole)
  }

  /** The upload gate is the stricter one: it fails closed on a lookup error. */
  lemma UploadAccessIsStricter(session: Session)
    ensures UploadAccess(session) <==> GalleryAdmin(session) && !session.value.failed
    ensures session == None ==> !UploadAccess(session) && !GalleryAdmin(session)
  {
  }
}
