/** The `users` table entity and the password encoder the service is given. */
module UserModel {

  /** A row of the `users` table; the generated numeric id plays no part. */
  datatype User = User(userId: string, password: string)

  /** The repository as a table keyed by `userId`. */
  type UserTable = map<string, User>

  /** The `unique = true` constraint on the `userId` column: every record is
      stored under its own `userId`. */
  ghost predicate KeyedByUserId(table: UserTable) {
    forall k :: k in table ==> table[k].userId == k
  }

  /** Keyed storage means no two records share a `userId`. */
  lemma KeyedTableHasUniqueIds(table: UserTable, k1: string, k2: string)
    requires KeyedByUserId(table)
    requires k1 in table && k2 in table && k1 != k2
    ensures table[k1].userId != table[k2].userId
  {
  }

  /** The injected PasswordEncoder: `encode` hashes a plaintext, `matches`
      checks a plaintext against a stored hash. */
  datatype Encoder = Encoder(encode: string -> string, matches: (string, string) -> bool)

  /** The one property the service relies on: a password matches its own encoding. */
  ghost predicate Sound(e: Encoder) {
    forall p :: e.matches(p, e.encode(p))
  }
}
