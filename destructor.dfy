/**
 * The deletion side of the key rotator: it is fed the schedule table's stream of changes.
 * When an item expires and is removed, the old key it names is deleted and its owner told;
 * a failed delete puts the item back a few minutes later.
 */
module Destructor {
  import opened Wrappers
  import opened Backend

  /** `RETRY_AFTER_MINS`: how long to wait before retrying a failed delete. */
  const RetryAfterMins: int := 5

  /**
   * The fields `destroy_user_key` reads from a removed item (`dynamodb.OldImage`).
   * `deleteOn` is `None` where `delete_on` is missing or `int()` refuses it; it is read
   * only after a failed delete.
   */
  datatype Image = Image(user: string, ak: string, channel: string, endpoint: string, deleteOn: Option<int>)

  /**
   * One stream record: its `eventName` and the item it removed; `None` where the image
   * lacks `user`, `ak`, `notification_channel` or `notification_endpoint`.
   */
  datatype Event = Event(eventName: string, oldImage: Option<Image>)

  /** The item written back after a failed delete: the same one, due `RETRY_AFTER_MINS` minutes later. */
  function Rescheduled(key: Image): DeletionRecord
    requires key.deleteOn.Some?
  {
    DeletionRecord(key.user, key.ak, key.channel, key.endpoint, key.deleteOn.value + RetryAfterMins * 60)
  }

  /** `notify_user`: an e-mail or a Slack message about the deleted key, or nothing for another channel. */
  function DeletionNotice(userName: string, ak: string, channel: string, endpoint: string): (r: seq<Call>)
    ensures |r| <= 1
    ensures |r| == 1 <==> channel == "email" || channel == "slack"
    ensures |r| == 1 ==> IsNotification(r[0]) && r[0].notice == DeletedKeyNotice(userName, ak)
    ensures |r| == 1 ==> (r[0].SendEmail? <==> channel == "email") && (r[0].NotifySlack? <==> channel == "slack")
    ensures |r| == 1 && r[0].SendEmail? ==> r[0].to == endpoint
    ensures |r| == 1 && r[0].NotifySlack? ==> r[0].url == endpoint
  {
    if channel == "email" then [SendEmail(endpoint, DeletedKeyNotice(userName, ak))]
    else if channel == "slack" then [NotifySlack(endpoint, DeletedKeyNotice(userName, ak))]
    else []
  }

  /**
   * A `KeyError` escapes `destroy_user_key`, which nothing catches: before any call when a
   * `REMOVE` has no readable image, or after a failed delete when `delete_on` cannot be read.
   */
  predicate Aborts(e: Event, deleted: bool)
  {
    e.eventName == "REMOVE" && (e.oldImage.None? || (!deleted && e.oldImage.value.deleteOn.None?))
  }

  /**
   * What `destroy_user_key` does with a record: nothing unless it is a readable `REMOVE`;
   * then delete the key, and tell the user, or if the delete fails put the item back.
   * `deleted` is whether `delete_access_key` succeeded.
   */
  function DestroyCalls(e: Event, deleted: bool): seq<Call>
  {
    if e.eventName != "REMOVE" || e.oldImage.None? then []
    else
      var key := e.oldImage.value;
      [DeleteAccessKey(key.user, key.ak, deleted)]
        + (if deleted then DeletionNotice(key.user, key.ak, key.channel, key.endpoint)
           else if key.deleteOn.Some? then [PutItem(Rescheduled(key), true)]
           else [])
  }

  /**
   * `destroy_user_keys` from the `i`-th record on: each record in turn, up to and including
   * the first one that aborts. `deleted(i)` is the answer to the delete made for the `i`-th record.
   */
  function BatchCalls(events: seq<Event>, i: nat, deleted: nat -> bool): seq<Call>
    requires i <= |events|
    decreases |events| - i
  {
    if i == |events| then []
    else DestroyCalls(events[i], deleted(i)) + (if Aborts(events[i], deleted(i)) then [] else BatchCalls(events, i + 1, deleted))
  }

  /** Whether some record from the `i`-th on makes the batch abort. */
  predicate AbortsFrom(events: seq<Event>, i: nat, deleted: nat -> bool)
    requires i <= |events|
    decreases |events| - i
  {
    i < |events| && (Aborts(events[i], deleted(i)) || AbortsFrom(events, i + 1, deleted))
  }

  /** `notify_user` of the deletion side. */
  method NotifyUser(services: Services, userName: string, ak: string, channel: string, endpoint: string)
    requires services.Valid()
    modifies services
    ensures services.Valid()
    ensures services.calls == old(services.calls) + DeletionNotice(userName, ak, channel, endpoint)
    ensures services.table == old(services.table)
  {
    if channel == "email" {
      services.SendEmail(endpoint, DeletedKeyNotice(userName, ak));
    } else if channel == "slack" {
      services.NotifySlack(endpoint, DeletedKeyNotice(userName, ak));
    }
  }

  /** `destroy_user_key`; `aborted` says that the `KeyError` escaped. */
  method DestroyUserKey(services: Services, e: Event, deleted: bool) returns (aborted: bool)
    requires services.Valid()
    modifies services
    ensures services.Valid()
    ensures aborted == Aborts(e, deleted)
    ensures services.calls == old(services.calls) + DestroyCalls(e, deleted)
    ensures services.table == Apply(old(services.table), DestroyCalls(e, deleted))
  {
    if e.eventName == "REMOVE" {
      if e.oldImage.None? {
        return true;
      }
      var key := e.oldImage.value;
      ghost var t := services.table;
      services.DeleteAccessKey(key.user, key.ak, deleted);
      if deleted {
        NotifyUser(services, key.user, key.ak, key.channel, key.endpoint);
        ApplyWithoutPut(t, DestroyCalls(e, deleted));
      } else {
        if key.deleteOn.None? {
          ApplyWithoutPut(t, DestroyCalls(e, deleted));
          return true;  // `key['delete_on']` raises inside the handler
        }
        services.PutItem(Rescheduled(key), true);
        ApplyPair(t, DeleteAccessKey(key.user, key.ak, deleted), PutItem(Rescheduled(key), true));
      }
    }
    return false;
  }

  /** `destroy_user_keys`: the records one after the other, in order; an escaping error ends the batch. */
  method DestroyUserKeys(services: Services, events: seq<Event>, deleted: nat -> bool) returns (aborted: bool)
    requires services.Valid()
    modifies services
    ensures services.Valid()
    ensures services.calls == old(services.calls) + BatchCalls(events, 0, deleted)
    ensures services.table == Apply(old(services.table), BatchCalls(events, 0, deleted))
    ensures aborted == AbortsFrom(events, 0, deleted)
    ensures aborted <==> exists k :: 0 <= k < |events| && Aborts(events[k], deleted(k))
  {
    AbortsFromIff(events, 0, deleted);
    ghost var total := BatchCalls(events, 0, deleted);
    ghost var calls0, table0 := services.calls, services.table;
    var i := 0;
    while i < |events|
      invariant 0 <= i <= |events|
      invariant services.Valid()
      invariant AbortsFrom(events, 0, deleted) == AbortsFrom(events, i, deleted)
      invariant calls0 + total == services.calls + BatchCalls(events, i, deleted)
      invariant Apply(table0, total) == Apply(services.table, BatchCalls(events, i, deleted))
    {
      ghost var before, t := services.calls, services.table;
      var stop := DestroyNext(services, events, i, deleted);
      if stop {
        assert calls0 + total == before + BatchCalls(events, i, deleted);
        return true;
      }
      i := i + 1;
    }
    return false;
  }

  /**
   * One pass of the batch loop, `destroy_user_key` on the `i`-th record: afterwards what
   * remains to be done is the rest of the batch, or nothing when that record aborts.
   */
  method DestroyNext(services: Services, events: seq<Event>, i: nat, deleted: nat -> bool) returns (stop: bool)
    requires services.Valid() && i < |events|
    modifies services
    ensures services.Valid()
    ensures stop == Aborts(events[i], deleted(i))
    ensures stop ==> services.calls == old(services.calls) + BatchCalls(events, i, deleted)
    ensures stop ==> services.table == Apply(old(services.table), BatchCalls(events, i, deleted))
    ensures !stop ==> old(services.calls) + BatchCalls(events, i, deleted) == services.calls + BatchCalls(events, i + 1, deleted)
    ensures !stop ==>
              Apply(old(services.table), BatchCalls(events, i, deleted)) == Apply(services.table, BatchCalls(events, i + 1, deleted))
  {
    ghost var before, t := services.calls, services.table;
    ghost var head := DestroyCalls(events[i], deleted(i));
    stop := DestroyUserKey(services, events[i], deleted(i));
    BatchStep(events, i, deleted);
    if !stop {
      ghost var rest := BatchCalls(events, i + 1, deleted);
      AppendAssoc(before, head, rest);
      ApplyAppend(t, head, rest);
    }
  }

  /** One record of a batch: its own calls, then the rest of the batch unless it aborts. */
  lemma BatchStep(events: seq<Event>, i: nat, deleted: nat -> bool)
    requires i < |events|
    ensures Aborts(events[i], deleted(i)) ==> BatchCalls(events, i, deleted) == DestroyCalls(events[i], deleted(i))
    ensures !Aborts(events[i], deleted(i)) ==>
              BatchCalls(events, i, deleted) == DestroyCalls(events[i], deleted(i)) + BatchCalls(events, i + 1, deleted)
  {
  }

  // ---------------------------------------------------------------- properties

  /** A batch aborts exactly when one of its records does. */
  lemma {:induction false} AbortsFromIff(events: seq<Event>, i: nat, deleted: nat -> bool)
    requires i <= |events|
    ensures AbortsFrom(events, i, deleted) <==> exists k :: i <= k < |events| && Aborts(events[k], deleted(k))
    decreases |events| - i
  {
    if i < |events| {
      AbortsFromIff(events, i + 1, deleted);
    }
  }

  /** A record other than `REMOVE` is skipped: it makes no call, and the batch goes on with the next record. */
  lemma OtherEventSkipped(events: seq<Event>, i: nat, deleted: nat -> bool)
    requires i < |events| && events[i].eventName != "REMOVE"
    ensures !Aborts(events[i], deleted(i)) && DestroyCalls(events[i], deleted(i)) == []
    ensures BatchCalls(events, i, deleted) == BatchCalls(events, i + 1, deleted)
  {
  }

  /** A run of records other than `REMOVE` at the end of a batch makes no call at all. */
  lemma {:induction false} BatchIgnoresOtherEvents(events: seq<Event>, i: nat, deleted: nat -> bool)
    requires i <= |events|
    requires forall k :: i <= k < |events| ==> events[k].eventName != "REMOVE"
    ensures BatchCalls(events, i, deleted) == []
    decreases |events| - i
  {
    if i < |events| {
      BatchIgnoresOtherEvents(events, i + 1, deleted);
    }
  }

  /** A `REMOVE` whose image cannot be read ends the batch before any call is made. */
  lemma UnreadableImageAborts(e: Event, deleted: bool)
    requires e.eventName == "REMOVE" && e.oldImage.None?
    ensures Aborts(e, deleted) && DestroyCalls(e, deleted) == []
  {
  }

  /**
   * A readable `REMOVE` deletes exactly the key its item names, first and once.
   * When that succeeds, the batch goes on, whether `delete_on` is readable or not; one
   * notice about that key goes out by e-mail to the stored endpoint for `email`, by Slack to
   * it for `slack`, and none for another channel; the table is left alone.
   */
  lemma DeletedKeyIsNotified(e: Event, t: Table)
    requires e.eventName == "REMOVE" && e.oldImage.Some?
    ensures var key, calls := e.oldImage.value, DestroyCalls(e, true);
      !Aborts(e, true) &&
      calls[0] == DeleteAccessKey(key.user, key.ak, true) &&
      (key.channel == "email" ==> calls == [calls[0], SendEmail(key.endpoint, DeletedKeyNotice(key.user, key.ak))]) &&
      (key.channel == "slack" ==> calls == [calls[0], NotifySlack(key.endpoint, DeletedKeyNotice(key.user, key.ak))]) &&
      (key.channel != "email" && key.channel != "slack" ==> calls == [calls[0]]) &&
      Apply(t, calls) == t
  {
    var calls := DestroyCalls(e, true);
    ApplyWithoutPut(t, calls);
  }

  /**
   * When the delete fails and `delete_on` is readable, no notice goes out and the item is
   * put back under the same `(user, ak)`, with the same channel and endpoint, due
   * `RETRY_AFTER_MINS` minutes later; the batch goes on.
   */
  lemma FailedDeleteReschedules(e: Event, t: Table)
    requires e.eventName == "REMOVE" && e.oldImage.Some? && e.oldImage.value.deleteOn.Some?
    ensures var key, calls := e.oldImage.value, DestroyCalls(e, false);
      !Aborts(e, false) &&
      calls == [DeleteAccessKey(key.user, key.ak, false), PutItem(Rescheduled(key), true)] &&
      (forall j :: 0 <= j < |calls| ==> !IsNotification(calls[j])) &&
      KeyOf(Rescheduled(key)) == (key.user, key.ak) &&
      Rescheduled(key).channel == key.channel && Rescheduled(key).endpoint == key.endpoint &&
      Rescheduled(key).deleteOn == key.deleteOn.value + 300 &&
      Apply(t, calls) == t[(key.user, key.ak) := Rescheduled(key)]
  {
    var key := e.oldImage.value;
    ApplyPair(t, DeleteAccessKey(key.user, key.ak, false), PutItem(Rescheduled(key), true));
  }

  /**
   * When the delete fails and `delete_on` cannot be read, the delete is the only call: no
   * notice, no re-put, and the `KeyError` ends the batch.
   */
  lemma FailedDeleteWithoutDeadline(e: Event, t: Table)
    requires e.eventName == "REMOVE" && e.oldImage.Some? && e.oldImage.value.deleteOn.None?
    ensures var key, calls := e.oldImage.value, DestroyCalls(e, false);
      Aborts(e, false) && calls == [DeleteAccessKey(key.user, key.ak, false)] && Apply(t, calls) == t
  {
    ApplyWithoutPut(t, DestroyCalls(e, false));
  }

  /** Nothing after the first record that aborts is processed. */
  lemma {:induction false} BatchStopsAtAbort(events: seq<Event>, i: nat, n: nat, deleted: nat -> bool)
    requires i <= n < |events| && Aborts(events[n], deleted(n))
    ensures BatchCalls(events, i, deleted) == BatchCalls(events[..n + 1], i, deleted)
    decreases |events| - i
  {
    var prefix := events[..n + 1];
    assert prefix[i] == events[i];
    var head := DestroyCalls(events[i], deleted(i));
    if i == n {
      assert BatchCalls(events, i, deleted) == head + [] && BatchCalls(prefix, i, deleted) == head + [];
    } else {
      BatchStopsAtAbort(events, i + 1, n, deleted);
      if !Aborts(events[i], deleted(i)) {
        assert BatchCalls(events, i, deleted) == head + BatchCalls(events, i + 1, deleted);
        assert BatchCalls(prefix, i, deleted) == head + BatchCalls(prefix, i + 1, deleted);
      }
    }
  }

  /** In a batch, a deletion notice only ever comes right after the successful delete of that key. */
  predicate NoticesFollowDeletes(calls: seq<Call>)
  {
    forall j :: 0 <= j < |calls| && IsNotification(calls[j]) ==>
      1 <= j && calls[j - 1].DeleteAccessKey? && calls[j - 1].deleted &&
      calls[j].notice == DeletedKeyNotice(calls[j - 1].user, calls[j - 1].ak)
  }

  /** In a batch, a put only ever comes right after the failed delete of the key it reschedules. */
  predicate PutsFollowFailedDeletes(calls: seq<Call>)
  {
    forall j :: 0 <= j < |calls| && calls[j].PutItem? ==>
      1 <= j && calls[j - 1] == DeleteAccessKey(calls[j].record.user, calls[j].record.ak, false) && calls[j].accepted
  }

  lemma {:induction false} BatchOrdering(events: seq<Event>, i: nat, deleted: nat -> bool)
    requires i <= |events|
    ensures NoticesFollowDeletes(BatchCalls(events, i, deleted))
    ensures PutsFollowFailedDeletes(BatchCalls(events, i, deleted))
    decreases |events| - i
  {
    if i < |events| {
      var rest := if Aborts(events[i], deleted(i)) then [] else BatchCalls(events, i + 1, deleted);
      if !Aborts(events[i], deleted(i)) {
        BatchOrdering(events, i + 1, deleted);
      }
      DestroyOrdering(events[i], deleted(i));
      OrderingAppend(DestroyCalls(events[i], deleted(i)), rest);
    }
  }

  /** The calls made for one record are in that order. */
  lemma DestroyOrdering(e: Event, deleted: bool)
    ensures NoticesFollowDeletes(DestroyCalls(e, deleted))
    ensures PutsFollowFailedDeletes(DestroyCalls(e, deleted))
  {
  }

  /** Both orderings survive concatenation, since neither can hold of a sequence that starts with a notice or a put. */
  lemma OrderingAppend(a: seq<Call>, b: seq<Call>)
    requires NoticesFollowDeletes(a) && PutsFollowFailedDeletes(a)
    requires NoticesFollowDeletes(b) && PutsFollowFailedDeletes(b)
    ensures NoticesFollowDeletes(a + b) && PutsFollowFailedDeletes(a + b)
  {
    var calls := a + b;
    forall j | 0 <= j < |calls| && (IsNotification(calls[j]) || calls[j].PutItem?)
      ensures IsNotification(calls[j]) ==>
                1 <= j && calls[j - 1].DeleteAccessKey? && calls[j - 1].deleted &&
                calls[j].notice == DeletedKeyNotice(calls[j - 1].user, calls[j - 1].ak)
      ensures calls[j].PutItem? ==>
                1 <= j && calls[j - 1] == DeleteAccessKey(calls[j].record.user, calls[j].record.ak, false) && calls[j].accepted
    {
      if j < |a| {
        assert calls[j] == a[j];
        if 1 <= j {
          assert calls[j - 1] == a[j - 1];
        }
      } else {
        var j' := j - |a|;
        assert calls[j] == b[j'];
        assert 1 <= j' && calls[j - 1] == b[j' - 1];
      }
    }
  }

  /** The image of an item as the stream delivers it once the item is removed. */
  function ImageOf(r: DeletionRecord): Image
  {
    Image(r.user, r.ak, r.channel, r.endpoint, Some(r.deleteOn))
  }

  /** The events of `k` failed attempts at deleting the key of `r`, each removing the item the previous one put back. */
  function RetryEvents(r: DeletionRecord, k: nat): (es: seq<Event>)
    ensures |es| == k
    ensures forall j :: 0 <= j < k ==> es[j] == Event("REMOVE", Some(ImageOf(r.(deleteOn := r.deleteOn + j * RetryAfterMins * 60))))
  {
    if k == 0 then [] else RetryEvents(r, k - 1) + [Event("REMOVE", Some(ImageOf(r.(deleteOn := r.deleteOn + (k - 1) * RetryAfterMins * 60))))]
  }

  /** The answers of a run in which every delete fails. */
  const AlwaysFails: nat -> bool := _ => false

  /**
   * Each of `k` failed deletes pushes the key's deadline back by `RETRY_AFTER_MINS`: the
   * table ends with the item due `k * 300` seconds after the original deadline.
   */
  lemma {:induction false} RetriesAccumulate(r: DeletionRecord, k: nat, t: Table)
    requires k > 0
    ensures Apply(t, BatchCalls(RetryEvents(r, k), 0, AlwaysFails)) == t[KeyOf(r) := r.(deleteOn := r.deleteOn + k * 300)]
  {
    var prev := r.(deleteOn := r.deleteOn + (k - 1) * 300);
    var last := Event("REMOVE", Some(ImageOf(prev)));
    var before := BatchCalls(RetryEvents(r, k - 1), 0, AlwaysFails);
    LastRetry(r, k);
    ApplyAppend(t, before, DestroyCalls(last, false));
    var mid := Apply(t, before);
    FailedDeleteReschedules(last, mid);
    assert Rescheduled(ImageOf(prev)) == r.(deleteOn := r.deleteOn + k * 300);
    if k > 1 {
      RetriesAccumulate(r, k - 1, t);
    } else {
      assert before == [];
    }
  }

  /** The `k`-th failed attempt comes after the first `k - 1`, none of which ends the batch. */
  lemma LastRetry(r: DeletionRecord, k: nat)
    requires k > 0
    ensures BatchCalls(RetryEvents(r, k), 0, AlwaysFails) ==
              BatchCalls(RetryEvents(r, k - 1), 0, AlwaysFails) +
              DestroyCalls(Event("REMOVE", Some(ImageOf(r.(deleteOn := r.deleteOn + (k - 1) * 300)))), false)
  {
    var es := RetryEvents(r, k);
    assert es[..k - 1] == RetryEvents(r, k - 1);
    assert (k - 1) * RetryAfterMins * 60 == (k - 1) * 300;
    BatchSplit(es, k - 1, AlwaysFails);
    assert BatchCalls(es, k, AlwaysFails) == [];
    assert BatchCalls(es, k - 1, AlwaysFails) == DestroyCalls(es[k - 1], false) + [];
  }

  /** A batch is its first `n` records followed by the rest, when none of the first `n` aborts. */
  lemma {:induction false} BatchSplit(events: seq<Event>, n: nat, deleted: nat -> bool)
    requires n <= |events|
    requires forall k :: 0 <= k < n ==> !Aborts(events[k], deleted(k))
    ensures BatchCalls(events, 0, deleted) == BatchCalls(events[..n], 0, deleted) + BatchCalls(events, n, deleted)
  {
    BatchPrefix(events, 0, n, deleted);
  }

  lemma {:induction false} BatchPrefix(events: seq<Event>, i: nat, n: nat, deleted: nat -> bool)
    requires i <= n <= |events|
    requires forall k :: i <= k < n ==> !Aborts(events[k], deleted(k))
    ensures BatchCalls(events, i, deleted) == BatchCalls(events[..n], i, deleted) + BatchCalls(events, n, deleted)
    decreases n - i
  {
    if i < n {
      BatchPrefix(events, i + 1, n, deleted);
      assert events[..n][i] == events[i];
      var head := DestroyCalls(events[i], deleted(i));
      assert BatchCalls(events, i, deleted) == head + BatchCalls(events, i + 1, deleted);
      assert BatchCalls(events[..n], i, deleted) == head + BatchCalls(events[..n], i + 1, deleted);
      AppendAssoc(head, BatchCalls(events[..n], i + 1, deleted), BatchCalls(events, n, deleted));
    } else {
      assert BatchCalls(events[..n], i, deleted) == [];
    }
  }
}
