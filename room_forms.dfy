/**
 * The validators of the room forms: each either rejects the cleaned value with
 * an error or hands it back unchanged. `today` is passed in; dates are day numbers.
 */
module RoomForms {
  import opened Wrappers
  import opened Rooms

  /** A room may run for at most 183 days. */
  const MaxDurationDays: int := 183

  /** The smallest donation, 1 PLN, in cents. */
  const MinimalAmount: int := 100

  datatype FormError =
    | ExpiryTooLate          // more than 183 days from today
    | ExpiryNotInFuture      // today or earlier
    | ToCollectNotEmpty      // the hidden field must stay empty
    | PriceBelowCollected    // lower than the money already collected
    | ExpiryBeyondCreation   // more than 183 days after the room was created
    | SameSenderAndReceiver
    | AmountBelowMinimum

  /** `RoomRegisterForm.clean_date_expires`: the expiry lies within the next 183 days. */
  function RegisterCleanDateExpires(dateExpires: int, today: int): (r: Result<int, FormError>)
    ensures r.Success? <==> today < dateExpires <= today + MaxDurationDays
    ensures r.Success? ==> r.value == dateExpires
    ensures dateExpires > today + MaxDurationDays ==> r == Failure(ExpiryTooLate)
    ensures dateExpires <= today ==> r == Failure(ExpiryNotInFuture)
  {
    var halfYearLater := today + MaxDurationDays;
    if dateExpires > halfYearLater then Failure(ExpiryTooLate)
    else if dateExpires <= today then Failure(ExpiryNotInFuture)
    else Success(dateExpires)
  }

  /** `RoomRegisterForm.clean`: rejects a `to_collect` that is present and non-zero. */
  function RegisterClean(toCollect: Option<int>): (r: Outcome<FormError>)
    ensures r.Fail? <==> toCollect.Some? && toCollect.value != 0
    ensures r.Fail? ==> r.error == ToCollectNotEmpty
  {
    if toCollect.Some? && toCollect.value != 0 then Fail(ToCollectNotEmpty) else Pass
  }

  /** `RoomUpdateForm.clean_price`: the new price is not below what was collected. */
  function UpdateCleanPrice(price: int, room: Room): (r: Result<int, FormError>)
    reads room
    ensures r.Success? <==> price >= room.price - room.toCollect
    ensures r.Success? ==> r.value == price
    ensures r.Failure? ==> r.error == PriceBelowCollected
  {
    if price < room.Collected() then Failure(PriceBelowCollected) else Success(price)
  }

  /** `RoomUpdateForm.clean_date_expires`: in the future, and within 183 days of creation. */
  function UpdateCleanDateExpires(dateExpires: int, created: int, today: int): (r: Result<int, FormError>)
    ensures r.Success? <==> today < dateExpires <= created + MaxDurationDays
    ensures r.Success? ==> r.value == dateExpires
    ensures dateExpires > created + MaxDurationDays ==> r == Failure(ExpiryBeyondCreation)
    ensures created + MaxDurationDays >= dateExpires && dateExpires <= today ==> r == Failure(ExpiryNotInFuture)
  {
    var maxLength := created + MaxDurationDays;
    if dateExpires > maxLength then Failure(ExpiryBeyondCreation)
    else if dateExpires <= today then Failure(ExpiryNotInFuture)
    else Success(dateExpires)
  }

  /** `MessageForm.clean`: sender and receiver are different users. */
  function MessageClean(receiver: User, sender: User): (r: Outcome<FormError>)
    ensures r.Fail? <==> receiver.id == sender.id
    ensures r.Fail? ==> r.error == SameSenderAndReceiver
  {
    if receiver.id == sender.id then Fail(SameSenderAndReceiver) else Pass
  }

  /** `DonateForm.clean_amount`: at least 1 PLN. */
  function DonateCleanAmount(amount: int): (r: Result<int, FormError>)
    ensures r.Success? <==> amount >= MinimalAmount
    ensures r.Success? ==> r.value == amount
    ensures r.Failure? ==> r.error == AmountBelowMinimum
  {
    if amount < MinimalAmount then Failure(AmountBelowMinimum) else Success(amount)
  }

  /**
   * Once a room exists, the update form's window is the registration window
   * cut short at 183 days after creation: never longer, and the same on the
   * day the room was created.
   */
  lemma UpdateWindowWithinRegisterWindow(dateExpires: int, created: int, today: int)
    requires created <= today
    ensures UpdateCleanDateExpires(dateExpires, created, today).Success?
      ==> RegisterCleanDateExpires(dateExpires, today).Success?
    ensures created == today ==>
      (UpdateCleanDateExpires(dateExpires, created, today).Success?
       <==> RegisterCleanDateExpires(dateExpires, today).Success?)
  {
  }

  /**
   * When the ledger accounts for what was collected, `clean_price` accepts a
   * price exactly when it covers the sum of the recorded donations.
   */
  lemma CleanPriceCoversLedger(price: int, room: Room)
    requires room.LedgerMatches()
    ensures UpdateCleanPrice(price, room).Success? <==> price >= Total(room.donations)
  {
  }

  /**
   * An amount the donation form accepts, given to an open room, lowers what is
   * left to collect, or closes the room; it keeps the room open exactly while
   * money is outstanding.
   */
  lemma AcceptedDonationProgresses(b: Balance, amount: int)
    requires DonateCleanAmount(amount).Success?
    requires OpenIffOutstanding(b)
    ensures b.isActive ==> Settle(b, amount).balance.toCollect < b.toCollect
    ensures !Settle(b, amount).balance.isActive <==> Settle(b, amount).balance.toCollect == 0
  {
  }
}
