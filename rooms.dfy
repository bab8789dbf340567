/**
 * Rooms: fundraising campaigns, their donation ledger and who may see them.
 *
 * Money is held in integer cents (the source's `DecimalField(decimal_places=2)`),
 * dates are integer day numbers.
 */
module Rooms {
  import opened Wrappers
  import Ordering

  /** A user account. Django compares model instances by primary key. */
  datatype User = User(id: nat, username: string)

  /** What `data.get('comment', amount)` yields: the text given, or the requested amount. */
  datatype Comment = Written(text: string) | RequestedAmount(cents: int)

  /** One row of the append-only donation ledger of a room. */
  datatype Donation = Donation(user: User, amount: int, date: int, comment: Comment)

  /** The dictionary handed to `donate`; a key that is absent is `None`. */
  datatype DonateData = DonateData(
    user: Option<User>,
    amount: Option<int>,
    date: Option<int>,
    comment: Option<string>)

  /** The error maps a room operation returns instead of raising. */
  datatype RoomError =
    | MissingData   // 'Brak wszystkich danych': `user` or `amount` absent
    | NoSuchGuest   // 'Nie ma takiego użytkownika': not exactly one guest by that name

  /** What `add_observer` is handed: a primary key, or a value the ORM cannot turn into one. */
  datatype ObserverRef = Pk(id: nat) | Malformed

  /** The part of a room that a donation changes. */
  datatype Balance = Balance(toCollect: int, isActive: bool)

  /** The balance after one donation, and the amount written to the ledger. */
  datatype Settlement = Settlement(balance: Balance, applied: int)

  /** A room as a row of its table, for the queries over all rooms. */
  datatype RoomRow = RoomRow(
    id: nat,
    price: int,
    toCollect: int,
    visible: bool,
    creator: Option<User>,
    guests: seq<User>,
    donationRows: nat)

  function Max(a: int, b: int): int { if a < b then b else a }

  /**
   * One donation of `amount` against the balance `b`. The amount recorded is
   * clamped to what is still to collect; the room closes when the amount covers it.
   */
  function Settle(b: Balance, amount: int): (r: Settlement)
    ensures r.applied <= amount && r.applied <= b.toCollect
    ensures r.applied == amount || r.applied == b.toCollect
    ensures r.balance.toCollect == Max(b.toCollect - amount, 0)
    ensures b.toCollect - r.balance.toCollect == r.applied
    ensures r.balance.isActive <==> b.isActive && amount < b.toCollect
  {
    var actual := if amount < b.toCollect then amount else b.toCollect;
    var fullCollection := b.toCollect <= amount;
    if fullCollection then Settlement(Balance(0, false), actual)
    else Settlement(Balance(b.toCollect - amount, b.isActive), actual)
  }

  /** A room is open exactly while something is left to collect. */
  predicate OpenIffOutstanding(b: Balance)
  {
    b.toCollect >= 0 && b.isActive == (b.toCollect > 0)
  }

  /** A non-negative donation keeps a room open exactly while money is outstanding. */
  lemma SettleKeepsOpenIffOutstanding(b: Balance, amount: int)
    requires OpenIffOutstanding(b) && amount >= 0
    ensures OpenIffOutstanding(Settle(b, amount).balance)
  {
  }

  /** The balances and ledger amounts after a run of donations. */
  function SettleAll(b: Balance, amounts: seq<int>): (r: (Balance, seq<int>))
    ensures |r.1| == |amounts|
    decreases |amounts|
  {
    if amounts == [] then (b, [])
    else
      var s := Settle(b, amounts[0]);
      var rest := SettleAll(s.balance, amounts[1..]);
      (rest.0, [s.applied] + rest.1)
  }

  /** Sum of a sequence of amounts. */
  function Sum(xs: seq<int>): int
  {
    if xs == [] then 0 else xs[0] + Sum(xs[1..])
  }

  /**
   * Whatever the amounts requested, the amounts recorded add up to exactly the
   * decrease of `to_collect`, and never exceed what was outstanding.
   */
  lemma {:induction false} LedgerConservation(b: Balance, amounts: seq<int>)
    requires b.toCollect >= 0
    ensures Sum(SettleAll(b, amounts).1) == b.toCollect - SettleAll(b, amounts).0.toCollect
    ensures Sum(SettleAll(b, amounts).1) <= b.toCollect
    decreases |amounts|
  {
    if amounts != [] {
      var s := Settle(b, amounts[0]);
      LedgerConservation(s.balance, amounts[1..]);
    }
  }

  /**
   * 500 outstanding: a gift of 200 leaves 300 and keeps the room open; the
   * remaining 300 closes it; both gifts are recorded in full.
   */
  lemma DonateTestRun()
    ensures SettleAll(Balance(50000, true), [20000, 30000]) == (Balance(0, false), [20000, 30000])
  {
    var closed := Balance(0, false);
    var rest := [30000];
    assert rest != [] && rest[1..] == [];
    assert SettleAll(closed, rest[1..]) == (closed, []);
    assert Settle(Balance(30000, true), 30000) == Settlement(closed, 30000);
    assert [30000] + [] == [30000];
    assert SettleAll(Balance(30000, true), rest) == (closed, [30000]);
    var all := [20000, 30000];
    assert all != [] && all[1..] == rest;
    assert Settle(Balance(50000, true), 20000) == Settlement(Balance(30000, true), 20000);
    assert [20000] + [30000] == all;
  }

  /**
   * A room with price 1000 and nothing collected: 500 leaves 500 and stays open,
   * 500 more closes it, and a further 100 records a donation of 0.
   */
  lemma FullCollectionScenario()
    ensures SettleAll(Balance(100000, true), [50000, 50000, 10000])
      == (Balance(0, false), [50000, 50000, 0])
    ensures Settle(Balance(100000, true), 50000) == Settlement(Balance(50000, true), 50000)
    ensures Settle(Balance(100000, true), 150000).applied == 100000
  {
    var closed := Balance(0, false);
    var third := [10000];
    assert third != [] && third[1..] == [];
    assert SettleAll(closed, third[1..]) == (closed, []);
    assert Settle(closed, 10000) == Settlement(closed, 0);
    assert [0] + [] == [0];
    assert SettleAll(closed, third) == (closed, [0]);
    var last2 := [50000, 10000];
    assert last2 != [] && last2[1..] == third;
    assert Settle(Balance(50000, true), 50000) == Settlement(closed, 50000);
    assert [50000] + [0] == [50000, 0];
    assert SettleAll(Balance(50000, true), last2) == (closed, [50000, 0]);
    var all := [50000, 50000, 10000];
    assert all != [] && all[1..] == last2;
    assert [50000] + [50000, 0] == [50000, 50000, 0];
  }

  /** Sum of the recorded amounts of a ledger. */
  function Total(ds: seq<Donation>): int
  {
    if ds == [] then 0 else Total(ds[..|ds| - 1]) + ds[|ds| - 1].amount
  }

  /** Sum of the recorded amounts of one username's donations. */
  function TotalBy(ds: seq<Donation>, name: string): int
  {
    if ds == [] then 0
    else TotalBy(ds[..|ds| - 1], name) + (if ds[|ds| - 1].user.username == name then ds[|ds| - 1].amount else 0)
  }

  /** The usernames of the donors, each once, in order of first donation. */
  function Donors(ds: seq<Donation>): (r: seq<string>)
    ensures Distinct(r)
    ensures forall n :: n in r <==> exists d :: d in ds && d.user.username == n
    ensures |r| <= |ds|
  {
    if ds == [] then []
    else
      var init := ds[..|ds| - 1];
      var prev := Donors(init);
      var last := ds[|ds| - 1];
      assert ds == init + [last];
      if last.user.username in prev then prev else prev + [last.user.username]
  }

  /** `get_patrons`: donors' usernames ordered by the total they gave, largest first. */
  function GetPatrons(ds: seq<Donation>): (r: seq<string>)
    ensures Distinct(r)
    ensures forall n :: n in r <==> exists d :: d in ds && d.user.username == n
    ensures forall i, j :: 0 <= i < j < |r| ==> TotalBy(ds, r[i]) >= TotalBy(ds, r[j])
    ensures |r| <= |ds|
  {
    var key := (n: string) => TotalBy(ds, n);
    var names := Donors(ds);
    var r := Ordering.SortDesc(names, key);
    PermutationKeepsDistinct(names, r);
    forall n ensures n in r <==> n in names {
      Ordering.SortDescMembers(names, key, n);
    }
    r
  }

  /** Whether `u` is among `guests`, compared by primary key. */
  predicate IsGuest(guests: seq<User>, u: User)
  {
    exists g :: g in guests && g.id == u.id
  }

  /** Whether `u` is the (possibly absent) creator, compared by primary key. */
  predicate IsCreator(creator: Option<User>, u: User)
  {
    creator.Some? && creator.value.id == u.id
  }

  /** Who may see a room: it is public, or `u` is one of its guests or its creator. */
  predicate MaySee(visible: bool, creator: Option<User>, guests: seq<User>, u: User)
  {
    visible || IsGuest(guests, u) || IsCreator(creator, u)
  }

  /** The money a room has collected: its price less what is still to collect. */
  function AmountCollected(price: int, toCollect: int): int
  {
    price - toCollect
  }

  /** The guests whose username is `name`. */
  function Named(guests: seq<User>, name: string): (r: seq<User>)
    ensures forall g :: g in r <==> g in guests && g.username == name
    ensures r == [] <==> forall g :: g in guests ==> g.username != name
  {
    if guests == [] then []
    else (if guests[0].username == name then [guests[0]] else []) + Named(guests[1..], name)
  }

  /** `guests.remove(g)`: drops every entry with `g`'s primary key, keeping the others in order. */
  function WithoutUser(guests: seq<User>, g: User): (r: seq<User>)
    ensures forall x :: x in r <==> x in guests && x.id != g.id
    ensures |r| <= |guests|
  {
    if guests == [] then []
    else (if guests[0].id == g.id then [] else [guests[0]]) + WithoutUser(guests[1..], g)
  }

  /** `get_guests_dict`: the guests' usernames, one per guest, in order. */
  function Usernames(guests: seq<User>): seq<string>
  {
    seq(|guests|, i requires 0 <= i < |guests| => guests[i].username)
  }

  /**
   * A successful `guest_remove(name)` leaves nobody of that name, and keeps
   * every guest with another primary key.
   */
  lemma GuestRemoveEffect(guests: seq<User>, name: string)
    requires |Named(guests, name)| == 1
    ensures Named(WithoutUser(guests, Named(guests, name)[0]), name) == []
    ensures forall x :: x in guests && x.id != Named(guests, name)[0].id ==> x in WithoutUser(guests, Named(guests, name)[0])
  {
  }

  class Room {
    const id: nat
    var price: int
    var toCollect: int
    var visible: bool
    var isActive: bool
    var creator: Option<User>
    var created: int
    var dateExpires: int
    var guests: seq<User>
    var observers: set<nat>
    var donations: seq<Donation>

    /** A new room: open, with no guests, observers or donations yet. */
    constructor (id: nat, price: int, toCollect: int, visible: bool, creator: Option<User>, created: int, dateExpires: int)
      ensures this.id == id && this.price == price && this.toCollect == toCollect
      ensures this.visible == visible && this.creator == creator
      ensures this.created == created && this.dateExpires == dateExpires
      ensures isActive && guests == [] && observers == {} && donations == []
    {
      this.id := id;
      this.price := price;
      this.toCollect := toCollect;
      this.visible := visible;
      this.creator := creator;
      this.created := created;
      this.dateExpires := dateExpires;
      isActive := true;
      guests := [];
      observers := {};
      donations := [];
    }

    /** `collected()`: the money collected so far. */
    function Collected(): (c: int)
      reads this
      ensures c + toCollect == price
      ensures toCollect >= 0 ==> c <= price
    {
      AmountCollected(price, toCollect)
    }

    /** The ledger accounts for everything collected. */
    ghost predicate LedgerMatches()
      reads this
    {
      Collected() == Total(donations)
    }

    /** `num_patrons`: `patrons` goes through Donation, so it counts ledger rows. */
    function NumPatrons(): (n: nat)
      reads this
      ensures n >= |GetPatrons(donations)|
    {
      |donations|
    }

    /** This room as a row of the rooms table. */
    function Row(): RoomRow
      reads this
    {
      RoomRow(id, price, toCollect, visible, creator, guests, |donations|)
    }

    /**
     * `donate(data)`: without `user` or `amount` nothing changes and the error is
     * returned; otherwise the balance moves as `Settle` says and one donation,
     * dated today, is appended.
     */
    method Donate(data: DonateData, today: int) returns (outcome: Outcome<RoomError>)
      modifies this
      ensures data.user.None? || data.amount.None? ==>
        outcome == Fail(MissingData) && unchanged(this)
      ensures data.user.Some? && data.amount.Some? ==>
        var s := Settle(old(Balance(toCollect, isActive)), data.amount.value);
        var comment := if data.comment.Some? then Written(data.comment.value)
                       else RequestedAmount(data.amount.value);
        && outcome == Pass
        && Balance(toCollect, isActive) == s.balance
        && donations == old(donations) + [Donation(data.user.value, s.applied, today, comment)]
      ensures price == old(price) && visible == old(visible) && creator == old(creator)
      ensures guests == old(guests) && observers == old(observers)
      ensures created == old(created) && dateExpires == old(dateExpires)
      ensures old(LedgerMatches()) ==> LedgerMatches()
    {
      if data.user.None? || data.amount.None? {
        return Fail(MissingData);
      }
      var user := data.user.value;
      var amount := data.amount.value;
      // The donation's own date is `auto_now`: it is the day it is saved.
      var comment := if data.comment.Some? then Written(data.comment.value) else RequestedAmount(amount);
      var actualAmount := if amount < toCollect then amount else toCollect;
      var fullCollection := toCollect <= amount;
      if fullCollection {
        toCollect := 0;
        isActive := false;
      } else {
        toCollect := toCollect - amount;
      }
      var last := Donation(user, actualAmount, today, comment);
      assert Total(donations + [last]) == Total(donations) + actualAmount by {
        assert (donations + [last])[..|donations|] == donations;
      }
      donations := donations + [last];
      outcome := Pass;
    }

    /** `can_see(user)`: the room is public, or the user is a guest or its creator. */
    method CanSee(u: User) returns (b: bool)
      ensures b <==> MaySee(visible, creator, guests, u)
    {
      if visible {
        return true;
      }
      var present := guests;
      var canSee: seq<Option<User>> := seq(|present|, i requires 0 <= i < |present| => Some(present[i]));
      canSee := canSee + [creator];
      b := exists k :: 0 <= k < |canSee| && canSee[k].Some? && canSee[k].value.id == u.id;
      if IsGuest(guests, u) {
        var g :| g in guests && g.id == u.id;
        var k :| 0 <= k < |guests| && guests[k] == g;
        assert canSee[k] == Some(g);
      }
      if IsCreator(creator, u) {
        assert canSee[|canSee| - 1] == creator;
      }
    }

    /** `add_observer(user_id)`: a valid key joins the observers; a malformed one changes nothing. */
    method AddObserver(ref: ObserverRef) returns (isValid: bool)
      modifies this
      ensures ref.Malformed? ==> !isValid && observers == old(observers)
      ensures ref.Pk? ==> isValid && observers == old(observers) + {ref.id}
      ensures price == old(price) && toCollect == old(toCollect) && isActive == old(isActive)
      ensures visible == old(visible) && creator == old(creator) && guests == old(guests)
      ensures donations == old(donations) && created == old(created) && dateExpires == old(dateExpires)
    {
      if ref.Malformed? {
        return false;
      }
      observers := observers + {ref.id};
      isValid := true;
    }

    /** `get_guests_dict()`: the guests' usernames in order. */
    function GetGuestsDict(): (r: seq<string>)
      reads this
      ensures |r| == |guests|
      ensures forall n :: n in r <==> exists g :: g in guests && g.username == n
    {
      var names := Usernames(guests);
      assert forall i :: 0 <= i < |guests| ==> names[i] == guests[i].username;
      names
    }

    /**
     * `guest_remove(name)`: unless exactly one guest has that username, an error
     * and no change; otherwise that guest leaves and the remaining usernames are returned.
     */
    method GuestRemove(name: string) returns (r: Result<seq<string>, RoomError>)
      modifies this
      ensures |Named(old(guests), name)| != 1 ==> r == Failure(NoSuchGuest) && guests == old(guests)
      ensures |Named(old(guests), name)| == 1 ==>
        guests == WithoutUser(old(guests), Named(old(guests), name)[0]) && r == Success(Usernames(guests))
      ensures price == old(price) && toCollect == old(toCollect) && isActive == old(isActive)
      ensures visible == old(visible) && creator == old(creator) && observers == old(observers)
      ensures donations == old(donations) && created == old(created) && dateExpires == old(dateExpires)
    {
      var guest := Named(guests, name);
      if |guest| != 1 {
        return Failure(NoSuchGuest);
      }
      guests := WithoutUser(guests, guest[0]);
      r := Success(GetGuestsDict());
    }
  }
}
