/**
 * Room bookings (Beg-PracExc5 hotel/HotelBookings.java): the list of booked
 * rooms, the lookup by kind and number, and the rule roomDetails applies to a
 * requested room.
 *
 * A booked room is a value: its kind (Suite or plain HotelRoom) and its
 * number; the nightly rates are doubles and are not part of this model. The
 * dialogs are not modelled either: the kind and the parsed room number are
 * parameters.
 */
module HotelBooking {
  import opened JavaLang

  /** The highest room number that may be booked. */
  const MAX_ROOM_NUMBER := 600

  /** A booked room: a Suite when `suite`, otherwise a plain HotelRoom. */
  datatype Room = Room(suite: bool, number: int)

  /** Some room of this kind with this number is booked. */
  predicate Booked(rooms: seq<Room>, suite: bool, n: int) {
    exists i :: 0 <= i < |rooms| && rooms[i].suite == suite && rooms[i].number == n
  }

  /** Every booked number is in 1..600 and no kind-and-number pair is booked twice. */
  predicate Register(rooms: seq<Room>) {
    (forall i :: 0 <= i < |rooms| ==> 1 <= rooms[i].number <= MAX_ROOM_NUMBER)
    && (forall i, j :: 0 <= i < j < |rooms| ==> rooms[i] != rooms[j])
  }

  /**
   * What one entered room number leads to: the number is not an int or is out
   * of range, so the dialog asks again; the room is already booked, so the
   * booking is abandoned; or the room is booked at the given index.
   */
  datatype Outcome = AskAgain | AlreadyBooked | BookedAt(index: nat)

  /** Booking a room of one kind does not change which rooms of the other kind are booked. */
  lemma KindsDoNotCollide(rooms: seq<Room>, suite: bool, n: int, m: int)
    ensures Booked(rooms + [Room(suite, n)], !suite, m) <==> Booked(rooms, !suite, m)
  {
    var more := rooms + [Room(suite, n)];
    if Booked(more, !suite, m) {
      var i :| 0 <= i < |more| && more[i].suite == !suite && more[i].number == m;
      assert i < |rooms| && rooms[i] == more[i];
    }
    if Booked(rooms, !suite, m) {
      var i :| 0 <= i < |rooms| && rooms[i].suite == !suite && rooms[i].number == m;
      assert more[i] == rooms[i];
    }
  }

  class HotelBookings {
    /** The static list `rooms`. */
    var rooms: seq<Room>

    /** The list starts empty. */
    constructor ()
      ensures rooms == []
    {
      rooms := [];
    }

    /** contains(suite, roomNo): false on an empty list; otherwise whether a room of that kind has that number. */
    method Contains(suite: bool, roomNo: int) returns (b: bool)
      ensures b <==> Booked(rooms, suite, roomNo)
      ensures rooms == [] ==> !b
    {
      if rooms == [] {
        return false;
      }
      for i := 0 to |rooms|
        invariant forall k :: 0 <= k < i ==> !(rooms[k].suite == suite && rooms[k].number == roomNo)
      {
        var r := rooms[i];
        if r.suite {
          if suite {
            if r.number == roomNo {
              return true;
            }
          }
        } else {
          if !suite {
            if r.number == roomNo {
              return true;
            }
          }
        }
      }
      return false;
    }

    /**
     * One pass of roomDetails' number loop for the chosen kind and the
     * entered number (None when it is not an int): the list grows by exactly
     * the requested room, at index old size, only when the number is in
     * 1..600 and that kind-and-number is not yet booked.
     */
    method RoomDetails(suite: bool, entered: Option<int>) returns (r: Outcome)
      requires Register(rooms)
      modifies this
      ensures Register(rooms)
      ensures r.AskAgain? <==> entered.None? || !(1 <= entered.value <= MAX_ROOM_NUMBER)
      ensures r.AlreadyBooked? <==>
        (entered.Some? && 1 <= entered.value <= MAX_ROOM_NUMBER && Booked(old(rooms), suite, entered.value))
      ensures r.BookedAt? ==> r.index == |old(rooms)| && rooms == old(rooms) + [Room(suite, entered.value)]
      ensures !r.BookedAt? ==> rooms == old(rooms)
    {
      if entered.None? {
        return AskAgain;
      }
      var num := entered.value;
      if num < 1 || num > MAX_ROOM_NUMBER {
        num := -1;
      }
      var taken := Contains(suite, num);
      if taken {
        return AlreadyBooked;
      }
      if num == -1 {
        return AskAgain;
      }
      var index := |rooms|;
      rooms := rooms + [Room(suite, num)];
      return BookedAt(index);
    }
  }

  /** Out-of-range numbers are never booked in a register, so roomDetails' check of -1 finds nothing. */
  lemma OutOfRangeNeverBooked(rooms: seq<Room>, suite: bool, n: int)
    requires Register(rooms) && !(1 <= n <= MAX_ROOM_NUMBER)
    ensures !Booked(rooms, suite, n)
  {
  }

  /** Each kind-and-number is booked at most once, so a register has at most 1200 rooms. */
  lemma {:induction false} RegisterIsBounded(rooms: seq<Room>)
    requires Register(rooms)
    ensures |rooms| <= 2 * MAX_ROOM_NUMBER
  {
    var all := set s: bool, n: int | 1 <= n <= MAX_ROOM_NUMBER :: Room(s, n);
    var used := set i | 0 <= i < |rooms| :: rooms[i];
    assert used <= all;
    AllRoomsCount(MAX_ROOM_NUMBER);
    SetOfDistinctHasLength(rooms);
    assert |used| <= |all| by {
      SubsetSmaller(used, all);
    }
  }

  lemma {:induction false} AllRoomsCount(m: nat)
    ensures |set s: bool, n: int | 1 <= n <= m :: Room(s, n)| == 2 * m
    decreases m
  {
    var all := set s: bool, n: int | 1 <= n <= m :: Room(s, n);
    if m == 0 {
      assert all == {};
    } else {
      var rest := set s: bool, n: int | 1 <= n <= m - 1 :: Room(s, n);
      AllRoomsCount(m - 1);
      assert all == rest + {Room(false, m), Room(true, m)};
      assert Room(false, m) !in rest && Room(true, m) !in rest;
    }
  }

  lemma {:induction false} SetOfDistinctHasLength(rooms: seq<Room>)
    requires forall i, j :: 0 <= i < j < |rooms| ==> rooms[i] != rooms[j]
    ensures |set i | 0 <= i < |rooms| :: rooms[i]| == |rooms|
    decreases |rooms|
  {
    if rooms != [] {
      var init := rooms[..|rooms| - 1];
      SetOfDistinctHasLength(init);
      var s := set i | 0 <= i < |rooms| :: rooms[i];
      var t := set i | 0 <= i < |init| :: init[i];
      assert s == t + {rooms[|rooms| - 1]};
      assert rooms[|rooms| - 1] !in t;
    }
  }

  lemma SubsetSmaller<T>(a: set<T>, b: set<T>)
    requires a <= b
    ensures |a| <= |b|
  {
    assert b == a + (b - a);
  }
}
