/** The key balance document: the user it belongs to and a count with a default. */
module KeyModel {
  import opened Common

  datatype Key = Key(user: UserId, count: int)

  /** Creating a key document: `user` is required, `count` defaults to 0 and has
      neither a lower nor an upper bound. */
  function CreateKey(user: Option<UserId>, count: Option<int>): (r: Result<Key, ValidationError>)
    ensures r.Err? <==> user.None?
    ensures r.Ok? ==> r.value.user == user.value
  {
    match user
    case None => Err(Required("user"))
    case Some(u) => Ok(Key(u, count.GetOr(0)))
  }

  /** A document created without a count holds zero keys. */
  lemma CountDefaultsToZero(u: UserId)
    ensures CreateKey(Some(u), None) == Ok(Key(u, 0))
  {
  }

  /** The schema alone lets a negative balance through; only the controller's
      `count < cost` guard keeps balances non-negative. */
  lemma NegativeCountAccepted(u: UserId, c: int)
    ensures CreateKey(Some(u), Some(c)) == Ok(Key(u, c))
  {
  }
}
