/** The records the group list works on, as the remote JSON endpoint delivers them.
    The list is read-only for the component: filtering selects records, it never
    builds or edits one. */
module Groups {

  /** A field that may be missing from a JSON record. */
  datatype Option<+T> = None | Some(value: T)

  /** A friend of the current user who is a member of a group. */
  datatype Friend = Friend(first_name: string, last_name: string)

  /** One social-network group. `friends` may be absent from the record, which the
      filter treats like an empty list. */
  datatype Group = Group(
    id: int,
    name: string,
    avatar_color: string,
    closed: bool,
    members_count: int,
    friends: Option<seq<Friend>>
  )
}
