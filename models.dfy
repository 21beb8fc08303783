/** The shape of the records the engine consumes: an expense with its payer, amount
    and shares, as stored by the persistence layer. Group id, description and the
    creation timestamp are not carried: the caller supplies a group's expenses already
    in creation order. */
module Models {
  import opened Money

  type UserId = int

  datatype Option<+T> = None | Some(value: T)

  /** One participant's stake in an expense. `weight` is the optional share, in
      ten-thousandths (shares are stored rounded to four decimals); `None` is the
      database NULL. */
  datatype Share = Share(userId: UserId, weight: Option<int>)

  /** An expense: who paid, how much (in cents), and the shares it is split into. */
  datatype Expense = Expense(payer: UserId, amount: Cents, shares: seq<Share>)

  /** The participant ids of a list of shares, in order, repeats kept. */
  function UserIds(shares: seq<Share>): (ids: seq<UserId>)
    ensures |ids| == |shares|
    ensures forall i :: 0 <= i < |shares| ==> ids[i] == shares[i].userId
  {
    if shares == [] then [] else [shares[0].userId] + UserIds(shares[1..])
  }
}
