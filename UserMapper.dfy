/** The projection of a stored user onto the response body. */
module UserMapper {
  import opened Wrappers
  import opened UserModel
  import opened UserDto

  /** `instantToString`: null stays null, otherwise the ISO-8601 text. */
  function InstantToString(instant: Option<Instant>): (text: Option<string>)
    ensures text.None? <==> instant.None?
  {
    if instant.Some? then Some(instant.value.iso8601) else None
  }

  /** `toResponse`: the fields with the same names, and the registration date as text.
      The identity provider and the provider's username are not exposed. */
  function ToResponse(user: User): (r: UserResponse)
    ensures r.id == user.id && r.visibleUsername == user.visibleUsername && r.email == user.email
    ensures r.registrationDate.Some? <==> user.registrationDate.Some?
    ensures r.favorites == user.favorites && r.watchHistory == user.watchHistory
  {
    UserResponse(user.id, user.visibleUsername, user.email, InstantToString(user.registrationDate),
                 user.favorites, user.watchHistory)
  }

  /** Different instants give different texts. */
  lemma InstantToStringInjective(a: Option<Instant>, b: Option<Instant>)
    ensures InstantToString(a) == InstantToString(b) <==> a == b
  {
    if InstantToString(a) == InstantToString(b) && a.Some? {
      assert b.Some? && a.value.iso8601 == b.value.iso8601;
    }
  }

  /** Two users have the same response exactly when they agree on every field but the
      identity provider and the provider's username: those two never show, and every
      other field is copied without loss. */
  lemma ToResponseEqual(u: User, v: User)
    ensures ToResponse(u) == ToResponse(v) <==>
              && u.id == v.id && u.visibleUsername == v.visibleUsername && u.email == v.email
              && u.registrationDate == v.registrationDate
              && u.favorites == v.favorites && u.watchHistory == v.watchHistory
  {
    InstantToStringInjective(u.registrationDate, v.registrationDate);
  }
}
