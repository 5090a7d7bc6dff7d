/** The reservation path of the livestream handler: the booking term, the
    table of reservation slots with their remaining counts, and the catalog
    of livestreams and their tag rows that a successful reservation appends
    to. The SQL statements become filters and updates over in-memory tables;
    the transaction becomes "a rejected request changes nothing". */
module Reservation {
  import opened Optional
  import opened UserHandler

  /** 2023-11-25 01:00:00 UTC and 2024-11-25 01:00:00 UTC as Unix seconds. */
  const TermStartAt: int := 1700874000
  const TermEndAt: int := 1732496400

  /** Days since 1970-01-01 of a proleptic Gregorian date (the day count of
      `time.Date`), counted in 400-year eras starting on March 1st. */
  function DaysFromCivil(year: int, month: int, day: int): int {
    var y := if month <= 2 then year - 1 else year;
    var era := y / 400;
    var yearOfEra := y - era * 400;
    var dayOfYear := (153 * ((month + 9) % 12) + 2) / 5 + day - 1;
    var dayOfEra := yearOfEra * 365 + yearOfEra / 4 - yearOfEra / 100 + dayOfYear;
    era * 146097 + dayOfEra - 719468
  }

  /** Seconds since the Unix epoch of a UTC calendar time. */
  function UnixSeconds(year: int, month: int, day: int, hour: int, minute: int, second: int): int {
    DaysFromCivil(year, month, day) * 86400 + hour * 3600 + minute * 60 + second
  }

  lemma EpochDay()
    ensures DaysFromCivil(1970, 1, 1) == 0
  {
    assert 1969 / 400 == 4;
    assert (153 * ((1 + 9) % 12) + 2) / 5 == 306;
    assert 369 / 4 == 92 && 369 / 100 == 3;
  }

  lemma TermStartDay()
    ensures DaysFromCivil(2023, 11, 25) == 19686
  {
    assert 2023 / 400 == 5;
    assert (153 * ((11 + 9) % 12) + 2) / 5 == 245;
    assert 23 / 4 == 5 && 23 / 100 == 0;
  }

  lemma TermEndDay()
    ensures DaysFromCivil(2024, 11, 25) == 20052
  {
    assert 2024 / 400 == 5;
    assert (153 * ((11 + 9) % 12) + 2) / 5 == 245;
    assert 24 / 4 == 6 && 24 / 100 == 0;
  }

  lemma SecondsOfDay(year: int, month: int, day: int, hour: int, days: int)
    requires DaysFromCivil(year, month, day) == days
    ensures UnixSeconds(year, month, day, hour, 0, 0) == days * 86400 + hour * 3600
  {
  }

  /** The term bounds are the Unix seconds of the two calendar times. */
  lemma TermMatchesCalendar()
    ensures UnixSeconds(1970, 1, 1, 0, 0, 0) == 0
    ensures UnixSeconds(2023, 11, 25, 1, 0, 0) == TermStartAt
    ensures UnixSeconds(2024, 11, 25, 1, 0, 0) == TermEndAt
  {
    EpochDay();
    SecondsOfDay(1970, 1, 1, 0, 0);
    TermStartDay();
    SecondsOfDay(2023, 11, 25, 1, 19686);
    TermEndDay();
    SecondsOfDay(2024, 11, 25, 1, 20052);
  }

  /** The term check of the handler: a request starting at or after the end
      of the term, or ending at or before its start, is refused. */
  predicate OutOfTerm(startAt: int, endAt: int) {
    startAt >= TermEndAt || endAt <= TermStartAt
  }

  /** Both edges of the term are refused, and the request one second inside
      each edge is accepted. */
  lemma TermBoundaries()
    ensures forall endAt :: OutOfTerm(TermEndAt, endAt)
    ensures forall startAt :: OutOfTerm(startAt, TermStartAt)
    ensures !OutOfTerm(TermEndAt - 1, TermStartAt + 1)
    ensures forall startAt, endAt :: !OutOfTerm(startAt, endAt) <==> startAt < TermEndAt && TermStartAt < endAt
  {
  }

  datatype ReservationSlot = ReservationSlot(id: int, slot: int, startAt: int, endAt: int)

  /** The WHERE clause of the slot query and of the slot update: the slot
      lies wholly inside the requested range. */
  predicate Contained(s: ReservationSlot, startAt: int, endAt: int) {
    s.startAt >= startAt && s.endAt <= endAt
  }

  /** `SELECT * FROM reservation_slots WHERE start_at >= ? AND end_at <= ?`,
      rows in table order. */
  function SelectSlots(table: seq<ReservationSlot>, startAt: int, endAt: int): (r: seq<ReservationSlot>)
    ensures forall s :: s in r <==> s in table && Contained(s, startAt, endAt)
    ensures |r| <= |table|
    ensures forall s :: multiset(r)[s] == if Contained(s, startAt, endAt) then multiset(table)[s] else 0
  {
    if table == [] then []
    else
      assert table == [table[0]] + table[1..];
      if Contained(table[0], startAt, endAt) then [table[0]] + SelectSlots(table[1..], startAt, endAt)
      else SelectSlots(table[1..], startAt, endAt)
  }

  predicate SameInterval(a: ReservationSlot, b: ReservationSlot) {
    a.startAt == b.startAt && a.endAt == b.endAt
  }

  /** Index of the first row with the same interval as `slot`, or |ms|. */
  function FirstSameInterval(ms: seq<ReservationSlot>, slot: ReservationSlot): (k: nat)
    ensures k <= |ms|
    ensures forall j :: 0 <= j < k ==> !SameInterval(ms[j], slot)
    ensures k < |ms| ==> SameInterval(ms[k], slot)
  {
    if ms == [] then 0
    else if SameInterval(ms[0], slot) then 0
    else 1 + FirstSameInterval(ms[1..], slot)
  }

  /** `ReservationSlotModels.GetSlotCount`: the count of the first row with
      the same interval as the argument, 0 when there is none. */
  function SlotCount(ms: seq<ReservationSlot>, slot: ReservationSlot): int {
    var k := FirstSameInterval(ms, slot);
    if k < |ms| then ms[k].slot else 0
  }

  /** The count read is that of the first row with the interval, whatever
      later rows with the same interval hold; 0 when no row has it. */
  lemma SlotCountReadsFirstMatch(ms: seq<ReservationSlot>, slot: ReservationSlot)
    ensures forall k :: 0 <= k < |ms| && SameInterval(ms[k], slot) && (forall j :: 0 <= j < k ==> !SameInterval(ms[j], slot)) ==> SlotCount(ms, slot) == ms[k].slot
    ensures (forall k :: 0 <= k < |ms| ==> !SameInterval(ms[k], slot)) ==> SlotCount(ms, slot) == 0
  {
  }

  method GetSlotCount(ms: seq<ReservationSlot>, slot: ReservationSlot) returns (count: int)
    ensures count == SlotCount(ms, slot)
  {
    for i := 0 to |ms|
      invariant forall j :: 0 <= j < i ==> !SameInterval(ms[j], slot)
    {
      if ms[i].startAt == slot.startAt && ms[i].endAt == slot.endAt {
        return ms[i].slot;
      }
    }
    return 0;
  }

  /** The capacity check: every selected slot, as read through
      `GetSlotCount` on the selected rows, has a count of at least 1. */
  ghost predicate HasCapacity(selected: seq<ReservationSlot>) {
    forall i {:trigger SlotCount(selected, selected[i])} :: 0 <= i < |selected| ==> SlotCount(selected, selected[i]) >= 1
  }

  method CheckCapacity(selected: seq<ReservationSlot>) returns (ok: bool)
    ensures ok <==> HasCapacity(selected)
  {
    for i := 0 to |selected|
      invariant forall j {:trigger SlotCount(selected, selected[j])} :: 0 <= j < i ==> SlotCount(selected, selected[j]) >= 1
    {
      var count := GetSlotCount(selected, selected[i]);
      if count < 1 {
        assert !HasCapacity(selected) by {
          assert SlotCount(selected, selected[i]) < 1;
        }
        return false;
      }
    }
    return true;
  }

  /** `UPDATE reservation_slots SET slot = slot - 1 WHERE start_at >= ? AND
      end_at <= ?`: exactly the contained rows lose one, the others keep
      their count, and no row moves or changes otherwise. */
  function Decremented(table: seq<ReservationSlot>, startAt: int, endAt: int): (r: seq<ReservationSlot>)
    ensures |r| == |table|
    ensures forall i :: 0 <= i < |table| && Contained(table[i], startAt, endAt) ==>
      r[i] == table[i].(slot := table[i].slot - 1)
    ensures forall i :: 0 <= i < |table| && !Contained(table[i], startAt, endAt) ==> r[i] == table[i]
  {
    if table == [] then []
    else
      var head := if Contained(table[0], startAt, endAt) then table[0].(slot := table[0].slot - 1) else table[0];
      var tail := Decremented(table[1..], startAt, endAt);
      assert forall i :: 0 < i < |table| ==> ([head] + tail)[i] == tail[i - 1] && table[1..][i - 1] == table[i];
      [head] + tail
  }

  function TotalCount(table: seq<ReservationSlot>): int {
    if table == [] then 0 else table[0].slot + TotalCount(table[1..])
  }

  /** A reservation consumes exactly one unit per selected slot. */
  lemma {:induction false} DecrementConsumesOnePerSelectedSlot(table: seq<ReservationSlot>, startAt: int, endAt: int)
    ensures TotalCount(Decremented(table, startAt, endAt)) == TotalCount(table) - |SelectSlots(table, startAt, endAt)|
  {
    if table != [] {
      var r := Decremented(table, startAt, endAt);
      assert r[1..] == Decremented(table[1..], startAt, endAt);
      DecrementConsumesOnePerSelectedSlot(table[1..], startAt, endAt);
    }
  }

  ghost predicate DistinctIntervals(ms: seq<ReservationSlot>) {
    forall i, j :: 0 <= i < j < |ms| ==> !SameInterval(ms[i], ms[j])
  }

  /** With no two selected rows sharing an interval, `GetSlotCount` reads a
      row's own count, so a request that passes the capacity check leaves no
      selected row below 0. */
  lemma NoOverbookingWithDistinctIntervals(table: seq<ReservationSlot>, startAt: int, endAt: int)
    requires DistinctIntervals(SelectSlots(table, startAt, endAt))
    requires HasCapacity(SelectSlots(table, startAt, endAt))
    ensures forall i :: 0 <= i < |table| && Contained(table[i], startAt, endAt) ==>
      Decremented(table, startAt, endAt)[i].slot >= 0
  {
    var selected := SelectSlots(table, startAt, endAt);
    forall i | 0 <= i < |table| && Contained(table[i], startAt, endAt)
      ensures Decremented(table, startAt, endAt)[i].slot >= 0
    {
      assert table[i] in selected;
      var k :| 0 <= k < |selected| && selected[k] == table[i];
      assert SlotCount(selected, selected[k]) == selected[k].slot;
    }
  }

  /** Without distinct intervals the check can read another row's count:
      a row with count 0 behind a row with the same interval and count 1
      passes the check and is decremented to -1. */
  lemma DuplicateIntervalOverbooks()
    ensures var table := [ReservationSlot(1, 1, TermStartAt, TermStartAt + 3600),
                          ReservationSlot(2, 0, TermStartAt, TermStartAt + 3600)];
      && HasCapacity(SelectSlots(table, TermStartAt, TermStartAt + 3600))
      && Decremented(table, TermStartAt, TermStartAt + 3600)[1].slot == -1
  {
    var table := [ReservationSlot(1, 1, TermStartAt, TermStartAt + 3600),
                  ReservationSlot(2, 0, TermStartAt, TermStartAt + 3600)];
    var selected := SelectSlots(table, TermStartAt, TermStartAt + 3600);
    assert table[1..][1..] == [];
    assert SelectSlots(table[1..], TermStartAt, TermStartAt + 3600) == [table[1]];
    assert selected == table;
    assert FirstSameInterval(selected, selected[1]) == 0;
  }

  /** A request that contains no whole slot passes the capacity check
      vacuously and leaves every count as it was. */
  lemma NoWholeSlotChangesNoCount(table: seq<ReservationSlot>, startAt: int, endAt: int)
    requires forall i :: 0 <= i < |table| ==> !Contained(table[i], startAt, endAt)
    ensures SelectSlots(table, startAt, endAt) == []
    ensures HasCapacity(SelectSlots(table, startAt, endAt))
    ensures Decremented(table, startAt, endAt) == table
  {
  }

  /** A reversed request (start after end) contains no slot whose own
      interval is not reversed. */
  lemma ReversedRequestSelectsNothing(table: seq<ReservationSlot>, startAt: int, endAt: int)
    requires startAt > endAt
    requires forall i :: 0 <= i < |table| ==> table[i].startAt <= table[i].endAt
    ensures SelectSlots(table, startAt, endAt) == []
    ensures Decremented(table, startAt, endAt) == table
  {
    NoWholeSlotChangesNoCount(table, startAt, endAt);
  }

  datatype ReserveLivestreamRequest = ReserveLivestreamRequest(
    tags: seq<int>, title: string, description: string,
    playlistUrl: string, thumbnailUrl: string, startAt: int, endAt: int)

  datatype LivestreamModel = LivestreamModel(
    id: int, userId: int, title: string, description: string,
    playlistUrl: string, thumbnailUrl: string, startAt: int, endAt: int)

  datatype LivestreamTagModel = LivestreamTagModel(id: int, livestreamId: int, tagId: int)

  datatype ReserveResult =
    | Reserved(livestream: LivestreamModel)
    | Unauthorized(reason: SessionError)
    | BadReservationRange
    | NoCapacity

  /** The tag rows a reservation inserts: one per requested tag, in request
      order, duplicates included, with consecutive row ids. */
  ghost function TagRowsFor(firstId: int, livestreamId: int, tags: seq<int>): seq<LivestreamTagModel> {
    seq(|tags|, i requires 0 <= i < |tags| => LivestreamTagModel(firstId + i, livestreamId, tags[i]))
  }

  /** Whether the handler commits: a valid session, a range inside the term,
      and capacity in every selected slot. */
  ghost predicate Admits(slots: seq<ReservationSlot>, session: Session, nowUnix: int, req: ReserveLivestreamRequest) {
    && VerifyUserSession(session, nowUnix) == None
    && !OutOfTerm(req.startAt, req.endAt)
    && HasCapacity(SelectSlots(slots, req.startAt, req.endAt))
  }

  /** The reservation slot table and the livestream catalog, with the
      auto-increment counters of the two catalog tables. */
  class ReservationDb {
    var slots: seq<ReservationSlot>
    var livestreams: seq<LivestreamModel>
    var livestreamTags: seq<LivestreamTagModel>
    var nextLivestreamId: int
    var nextTagId: int

    /** Every row id handed out so far is below its counter. */
    ghost predicate Valid()
      reads this
    {
      && (forall i :: 0 <= i < |livestreams| ==> livestreams[i].id < nextLivestreamId)
      && (forall i :: 0 <= i < |livestreamTags| ==> livestreamTags[i].id < nextTagId)
    }

    /** The slot table is seeded elsewhere and given here. */
    constructor (seeded: seq<ReservationSlot>)
      ensures Valid()
      ensures slots == seeded && livestreams == [] && livestreamTags == []
      ensures nextLivestreamId == 1 && nextTagId == 1
    {
      slots := seeded;
      livestreams := [];
      livestreamTags := [];
      nextLivestreamId := 1;
      nextTagId := 1;
    }

    method DecrementSlots(startAt: int, endAt: int)
      modifies this
      ensures slots == Decremented(old(slots), startAt, endAt)
      ensures livestreams == old(livestreams) && livestreamTags == old(livestreamTags)
      ensures nextLivestreamId == old(nextLivestreamId) && nextTagId == old(nextTagId)
    {
      ghost var target := Decremented(slots, startAt, endAt);
      for i := 0 to |slots|
        invariant |slots| == |old(slots)|
        invariant forall j :: 0 <= j < i ==> slots[j] == target[j]
        invariant forall j :: i <= j < |slots| ==> slots[j] == old(slots)[j]
        invariant livestreams == old(livestreams) && livestreamTags == old(livestreamTags)
        invariant nextLivestreamId == old(nextLivestreamId) && nextTagId == old(nextTagId)
      {
        var s := slots[i];
        if s.startAt >= startAt && s.endAt <= endAt {
          slots := slots[i := s.(slot := s.slot - 1)];
        }
      }
    }

    method InsertTags(livestreamId: int, tags: seq<int>)
      requires Valid()
      modifies this
      ensures Valid()
      ensures livestreamTags == old(livestreamTags) + TagRowsFor(old(nextTagId), livestreamId, tags)
      ensures nextTagId == old(nextTagId) + |tags|
      ensures slots == old(slots) && livestreams == old(livestreams) && nextLivestreamId == old(nextLivestreamId)
    {
      for i := 0 to |tags|
        invariant Valid()
        invariant livestreamTags == old(livestreamTags) + TagRowsFor(old(nextTagId), livestreamId, tags[..i])
        invariant nextTagId == old(nextTagId) + i
        invariant slots == old(slots) && livestreams == old(livestreams) && nextLivestreamId == old(nextLivestreamId)
      {
        livestreamTags := livestreamTags + [LivestreamTagModel(nextTagId, livestreamId, tags[i])];
        nextTagId := nextTagId + 1;
      }
      assert tags[..|tags|] == tags;
    }

    /** `reserveLivestreamHandler`. */
    method Reserve(session: Session, nowUnix: int, req: ReserveLivestreamRequest) returns (res: ReserveResult)
      requires Valid()
      modifies this
      ensures Valid()
      ensures VerifyUserSession(session, nowUnix).Some? ==> res == Unauthorized(VerifyUserSession(session, nowUnix).value)
      ensures VerifyUserSession(session, nowUnix) == None && OutOfTerm(req.startAt, req.endAt) ==> res == BadReservationRange
      ensures (&& VerifyUserSession(session, nowUnix) == None
               && !OutOfTerm(req.startAt, req.endAt)
               && !HasCapacity(SelectSlots(old(slots), req.startAt, req.endAt)))
        ==> res == NoCapacity
      ensures res.Reserved? <==> Admits(old(slots), session, nowUnix, req)
      ensures !res.Reserved? ==>
        && slots == old(slots) && livestreams == old(livestreams) && livestreamTags == old(livestreamTags)
        && nextLivestreamId == old(nextLivestreamId) && nextTagId == old(nextTagId)
      ensures res.Reserved? ==>
        && res.livestream == LivestreamModel(old(nextLivestreamId), session.userId.value, req.title, req.description,
                                             req.playlistUrl, req.thumbnailUrl, req.startAt, req.endAt)
        && (forall i :: 0 <= i < |old(livestreams)| ==> old(livestreams)[i].id < res.livestream.id)
        && slots == Decremented(old(slots), req.startAt, req.endAt)
        && livestreams == old(livestreams) + [res.livestream]
        && livestreamTags == old(livestreamTags) + TagRowsFor(old(nextTagId), res.livestream.id, req.tags)
        && nextLivestreamId == old(nextLivestreamId) + 1
        && nextTagId == old(nextTagId) + |req.tags|
    {
      var sessionError := VerifyUserSession(session, nowUnix);
      if sessionError.Some? {
        return Unauthorized(sessionError.value);
      }
      var userId := session.userId.value;

      if OutOfTerm(req.startAt, req.endAt) {
        return BadReservationRange;
      }

      var selected := SelectSlots(slots, req.startAt, req.endAt);
      var ok := CheckCapacity(selected);
      if !ok {
        return NoCapacity;
      }

      var livestream := LivestreamModel(0, userId, req.title, req.description,
                                        req.playlistUrl, req.thumbnailUrl, req.startAt, req.endAt);
      DecrementSlots(req.startAt, req.endAt);

      livestream := livestream.(id := nextLivestreamId);
      livestreams := livestreams + [livestream];
      nextLivestreamId := nextLivestreamId + 1;

      InsertTags(livestream.id, req.tags);
      return Reserved(livestream);
    }
  }
}
