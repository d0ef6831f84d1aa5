/**
 * The RefreshToken entity of the AuthPermissions data layer and the table that holds
 * it, keyed by token value (its primary key).
 */
module DataClasses {

  datatype RefreshToken = RefreshToken(
    tokenValue: string,
    userId: string,
    jwtId: string,
    isInvalid: bool,
    addedDateUtc: int)

  /** The RefreshTokens table: each record is stored under its own token value. */
  type Store = map<string, RefreshToken>

  ghost predicate KeyedByValue(store: Store)
  {
    forall v :: v in store ==> store[v].tokenValue == v
  }

  /**
   * RefreshToken.CreateNewRefreshToken: a new active record bound to a user and the
   * identifier of the access token issued with it. The random value it draws is the
   * parameter `tokenValue`, and the creation time is `now`.
   */
  function CreateNewRefreshToken(userId: string, jwtId: string, tokenValue: string, now: int): (r: RefreshToken)
    ensures r.tokenValue == tokenValue && r.userId == userId && r.jwtId == jwtId
    ensures !r.isInvalid && r.addedDateUtc == now
  {
    RefreshToken(tokenValue, userId, jwtId, false, now)
  }

  /** RefreshToken.MarkAsInvalid: retires the record and changes nothing else about it. */
  function MarkAsInvalid(t: RefreshToken): (r: RefreshToken)
    ensures r.isInvalid
    ensures r.tokenValue == t.tokenValue && r.userId == t.userId && r.jwtId == t.jwtId && r.addedDateUtc == t.addedDateUtc
  {
    t.(isInvalid := true)
  }

  /**
   * One save of a rotation: the presented record retired and the new record added,
   * together. Nothing else in the table changes.
   */
  function Rotated(store: Store, presented: string, created: RefreshToken): (after: Store)
    requires presented in store && created.tokenValue !in store
    ensures after.Keys == store.Keys + {created.tokenValue}
    ensures after[presented] == MarkAsInvalid(store[presented]) && after[created.tokenValue] == created
    ensures forall v :: v in store && v != presented ==> after[v] == store[v]
    ensures Evolves(store, after)
    ensures KeyedByValue(store) ==> KeyedByValue(after)
  {
    store[presented := MarkAsInvalid(store[presented])][created.tokenValue := created]
  }

  /**
   * How the table may change between two moments: no record disappears, and a record
   * either stays as it was or is retired.
   */
  ghost predicate Evolves(before: Store, after: Store)
  {
    forall v :: v in before ==> v in after && (after[v] == before[v] || after[v] == MarkAsInvalid(before[v]))
  }

  lemma EvolvesTransitive(s0: Store, s1: Store, s2: Store)
    requires Evolves(s0, s1) && Evolves(s1, s2)
    ensures Evolves(s0, s2)
  {
  }

  /** A retired record never changes again: there is no way back to an active record. */
  lemma RetiredStaysRetired(before: Store, after: Store, v: string)
    requires Evolves(before, after)
    requires v in before && before[v].isInvalid
    ensures v in after && after[v] == before[v]
  {
  }

}
