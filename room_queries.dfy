/**
 * The queries over the rooms table (`VisibleManager`): who may see which
 * rooms, and the rankings shown on the front page. A sequence of rows stands
 * for a queryset in the table's default order.
 */
module RoomQueries {
  import opened Wrappers
  import opened Rooms
  import Ordering

  /** The rows of a table are told apart by their primary keys. */
  ghost predicate UniqueIds(rooms: seq<RoomRow>)
  {
    forall i, j :: 0 <= i < j < |rooms| ==> rooms[i].id != rooms[j].id
  }

  /**
   * `get_visible(user)` called on the queryset `qs` of the rooms table
   * `table`: the public rooms of `qs`, together with the rooms of the whole
   * table that `u` created or is a guest of (`user.rooms`, `user.guest_rooms`
   * are not limited to `qs`), each once, in the table's order.
   */
  function GetVisible(qs: seq<RoomRow>, table: seq<RoomRow>, u: User): (r: seq<RoomRow>)
    ensures forall x :: x in r <==>
      x in table && ((x in qs && x.visible) || IsGuest(x.guests, u) || IsCreator(x.creator, u))
    ensures (forall x :: x in qs ==> x in table) ==> forall x :: x in r <==>
      (x in qs && x.visible) || (x in table && (IsGuest(x.guests, u) || IsCreator(x.creator, u)))
    ensures UniqueIds(table) ==> UniqueIds(r)
    ensures |r| <= |table|
  {
    if table == [] then []
    else
      var rest := GetVisible(qs, table[1..], u);
      assert forall x :: x in rest ==> x in table[1..];
      var x := table[0];
      if (x in qs && x.visible) || IsGuest(x.guests, u) || IsCreator(x.creator, u) then [x] + rest else rest
  }

  /**
   * On the whole table (`Room.objects.get_visible(user)`), a room's row is
   * returned exactly when `can_see` admits the user.
   */
  lemma GetVisibleAgreesWithCanSee(table: seq<RoomRow>, room: Room, u: User)
    requires room.Row() in table
    ensures room.Row() in GetVisible(table, table, u)
      <==> MaySee(room.visible, room.creator, room.guests, u)
  {
  }

  function CollectedOf(row: RoomRow): int { AmountCollected(row.price, row.toCollect) }

  function ToCollectOf(row: RoomRow): int { row.toCollect }

  function DonationRowsOf(row: RoomRow): int { row.donationRows }

  /** `most_popular()`: every room, the most collected first. */
  function MostPopular(rooms: seq<RoomRow>): (r: seq<RoomRow>)
    ensures multiset(r) == multiset(rooms)
    ensures forall i, j :: 0 <= i < j < |r| ==>
      AmountCollected(r[i].price, r[i].toCollect) >= AmountCollected(r[j].price, r[j].toCollect)
  {
    var r := Ordering.SortDesc(rooms, CollectedOf);
    assert forall i, j :: 0 <= i < j < |r| ==> CollectedOf(r[i]) >= CollectedOf(r[j]);
    r
  }

  /** The rooms with at least one donation row. */
  function WithDonations(rooms: seq<RoomRow>): (r: seq<RoomRow>)
    ensures forall x :: x in r <==> x in rooms && x.donationRows != 0
    ensures forall x :: x in rooms && x.donationRows != 0 ==> multiset(r)[x] == multiset(rooms)[x]
  {
    if rooms == [] then []
    else
      assert rooms == [rooms[0]] + rooms[1..];
      (if rooms[0].donationRows != 0 then [rooms[0]] else []) + WithDonations(rooms[1..])
  }

  /**
   * `most_patrons()`: the rooms with at least one donation, the most donation
   * rows first (`Count('patrons')` counts ledger rows, not distinct donors).
   */
  function MostPatrons(rooms: seq<RoomRow>): (r: seq<RoomRow>)
    ensures forall x :: x in r <==> x in rooms && x.donationRows != 0
    ensures forall x :: x in rooms && x.donationRows != 0 ==> multiset(r)[x] == multiset(rooms)[x]
    ensures forall i, j :: 0 <= i < j < |r| ==> r[i].donationRows >= r[j].donationRows
  {
    var kept := WithDonations(rooms);
    var r := Ordering.SortDesc(kept, DonationRowsOf);
    assert forall i, j :: 0 <= i < j < |r| ==> DonationRowsOf(r[i]) >= DonationRowsOf(r[j]);
    forall x ensures x in r <==> x in kept {
      Ordering.SortDescMembers(kept, DonationRowsOf, x);
    }
    r
  }

  /** `most_to_collect()`: every room, the most still to collect first. */
  function MostToCollect(rooms: seq<RoomRow>): (r: seq<RoomRow>)
    ensures multiset(r) == multiset(rooms)
    ensures forall i, j :: 0 <= i < j < |r| ==> r[i].toCollect >= r[j].toCollect
  {
    var r := Ordering.SortDesc(rooms, ToCollectOf);
    assert forall i, j :: 0 <= i < j < |r| ==> ToCollectOf(r[i]) >= ToCollectOf(r[j]);
    r
  }
}
