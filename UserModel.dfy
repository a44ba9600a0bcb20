/** The stored user record. */
module UserModel {
  import opened Wrappers

  /** A point in time, represented by its ISO-8601 text (`Instant.toString()`), which
      determines it. */
  datatype Instant = Instant(iso8601: string)

  /** The `users` container's record; `id` is its key. */
  datatype User = User(
    id: string,
    visibleUsername: Option<string>,
    email: Option<string>,
    identityProvider: Option<string>,
    providerUsername: Option<string>,
    registrationDate: Option<Instant>,
    favorites: seq<string>,
    watchHistory: seq<string>)
}
