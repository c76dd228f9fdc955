/**
 * The outside world as the two Lambda functions see it: IAM, the schedule table in
 * DynamoDB, and the e-mail and Slack senders. Every call the core makes is appended to
 * a log together with the answer the collaborator gave, and the schedule table is a map
 * keyed by `(user, ak)` in which a put replaces the entry with the same key.
 */
module Backend {

  /** One item of the schedule table: the key `ak` of `user` is due for deletion at `deleteOn` (epoch seconds). */
  datatype DeletionRecord = DeletionRecord(user: string, ak: string, channel: string, endpoint: string, deleteOn: int)

  /** The table's primary key: partition key `user`, sort key `ak`. */
  type RecordKey = (string, string)

  function KeyOf(r: DeletionRecord): RecordKey
  {
    (r.user, r.ak)
  }

  type Table = map<RecordKey, DeletionRecord>

  /** Every item is stored under its own primary key. */
  predicate TableValid(t: Table)
  {
    forall k :: k in t ==> KeyOf(t[k]) == k
  }

  /** IAM's answer to `create_access_key`: the new pair, or an error. */
  datatype KeyOutcome = Issued(ak: string, secret: string) | Refused

  /** What a notification tells the principal. */
  datatype Notice =
    | NewKeyNotice(user: string, newAk: string, secret: string, instruction: string, oldAk: string)
    | DeletedKeyNotice(user: string, ak: string)

  /** A call into a collaborator, with the answer it gave. */
  datatype Call =
    | CreateAccessKey(user: string, outcome: KeyOutcome)
    | DeleteAccessKey(user: string, ak: string, deleted: bool)
    | SendEmail(to: string, notice: Notice)
    | NotifySlack(url: string, notice: Notice)
    | PutItem(record: DeletionRecord, accepted: bool)

  predicate IsNotification(c: Call)
  {
    c.SendEmail? || c.NotifySlack?
  }

  /** The table after one call: only an accepted put changes it, replacing the item with the same key. */
  function Step(t: Table, c: Call): Table
  {
    if c.PutItem? && c.accepted then t[KeyOf(c.record) := c.record] else t
  }

  /** The table after a sequence of calls, applied in order. */
  function Apply(t: Table, calls: seq<Call>): Table
    decreases |calls|
  {
    if |calls| == 0 then t else Apply(Step(t, calls[0]), calls[1..])
  }

  /** Running two batches of calls one after the other has the effect of running them as one. */
  lemma {:induction false} ApplyAppend(t: Table, a: seq<Call>, b: seq<Call>)
    ensures Apply(t, a + b) == Apply(Apply(t, a), b)
    decreases |a|
  {
    if |a| == 0 {
      assert a + b == b;
    } else {
      assert (a + b)[0] == a[0];
      assert (a + b)[1..] == a[1..] + b;
      ApplyAppend(Step(t, a[0]), a[1..], b);
    }
  }

  lemma AppendAssoc(a: seq<Call>, b: seq<Call>, c: seq<Call>)
    ensures a + (b + c) == (a + b) + c
  {
  }

  /** Two calls in a row: the table after the second step. */
  lemma ApplyPair(t: Table, a: Call, b: Call)
    ensures Apply(t, [a, b]) == Step(Step(t, a), b)
  {
    assert [a, b][1..] == [b];
    assert Apply(t, [a, b]) == Apply(Step(t, a), [b]);
    assert [b][1..] == [];
  }

  /** Calls that include no accepted put leave the table as it was. */
  lemma {:induction false} ApplyWithoutPut(t: Table, calls: seq<Call>)
    requires forall i :: 0 <= i < |calls| ==> !(calls[i].PutItem? && calls[i].accepted)
    ensures Apply(t, calls) == t
    decreases |calls|
  {
    if |calls| > 0 {
      ApplyWithoutPut(t, calls[1..]);
    }
  }

  /** Calls whose accepted puts all target `key` leave every other item of the table as it was. */
  lemma {:induction false} ApplyOnlyTouches(t: Table, calls: seq<Call>, key: RecordKey)
    requires forall i :: 0 <= i < |calls| && calls[i].PutItem? && calls[i].accepted ==> KeyOf(calls[i].record) == key
    ensures forall k :: k != key ==> (k in Apply(t, calls) <==> k in t)
    ensures forall k :: k != key && k in t ==> Apply(t, calls)[k] == t[k]
    decreases |calls|
  {
    if |calls| > 0 {
      ApplyOnlyTouches(Step(t, calls[0]), calls[1..], key);
    }
  }

  /** Items stay under their own key whatever the calls. */
  lemma {:induction false} ApplyValid(t: Table, calls: seq<Call>)
    requires TableValid(t)
    ensures TableValid(Apply(t, calls))
    decreases |calls|
  {
    if |calls| > 0 {
      ApplyValid(Step(t, calls[0]), calls[1..]);
    }
  }

  /**
   * Scheduling the same `(user, ak)` twice leaves one item, the later one; items under
   * other keys are untouched.
   */
  lemma ScheduleTwice(t: Table, first: DeletionRecord, second: DeletionRecord)
    requires KeyOf(first) == KeyOf(second)
    ensures Apply(t, [PutItem(first, true), PutItem(second, true)]) == t[KeyOf(second) := second]
  {
    var calls := [PutItem(first, true), PutItem(second, true)];
    assert calls[1..] == [PutItem(second, true)];
    assert calls[1..][1..] == [];
    assert Apply(t, calls) == Apply(t[KeyOf(first) := first], [PutItem(second, true)]);
  }

  /** The collaborators: the log of the calls made to them, and the schedule table. */
  class Services {
    var calls: seq<Call>
    var table: Table

    ghost predicate Valid()
      reads this
    {
      TableValid(table)
    }

    constructor (t: Table)
      requires TableValid(t)
      ensures Valid() && calls == [] && table == t
    {
      calls := [];
      table := t;
    }

    /** `iam.create_access_key(UserName=user)`, answered with `outcome`. */
    method CreateAccessKey(user: string, outcome: KeyOutcome)
      requires Valid()
      modifies this
      ensures Valid()
      ensures calls == old(calls) + [Call.CreateAccessKey(user, outcome)] && table == old(table)
    {
      calls := calls + [Call.CreateAccessKey(user, outcome)];
    }

    /** `iam.delete_access_key(UserName=user, AccessKeyId=ak)`; `deleted` says whether it succeeded. */
    method DeleteAccessKey(user: string, ak: string, deleted: bool)
      requires Valid()
      modifies this
      ensures Valid()
      ensures calls == old(calls) + [Call.DeleteAccessKey(user, ak, deleted)] && table == old(table)
    {
      calls := calls + [Call.DeleteAccessKey(user, ak, deleted)];
    }

    /**
     * The mail sender; failures inside its `try` are caught, so it answers nothing. The
     * account lookup made before that `try` on the rotation side is taken to succeed.
     */
    method SendEmail(to: string, notice: Notice)
      requires Valid()
      modifies this
      ensures Valid()
      ensures calls == old(calls) + [Call.SendEmail(to, notice)] && table == old(table)
    {
      calls := calls + [Call.SendEmail(to, notice)];
    }

    /** The Slack sender; its failures are caught inside it, so it answers nothing. */
    method NotifySlack(url: string, notice: Notice)
      requires Valid()
      modifies this
      ensures Valid()
      ensures calls == old(calls) + [Call.NotifySlack(url, notice)] && table == old(table)
    {
      calls := calls + [Call.NotifySlack(url, notice)];
    }

    /** `dynamodb.put_item` of `record`; when `accepted`, the item replaces the one under the same key. */
    method PutItem(record: DeletionRecord, accepted: bool)
      requires Valid()
      modifies this
      ensures Valid()
      ensures calls == old(calls) + [Call.PutItem(record, accepted)]
      ensures table == Step(old(table), Call.PutItem(record, accepted))
      ensures table == if accepted then old(table)[KeyOf(record) := record] else old(table)
    {
      calls := calls + [Call.PutItem(record, accepted)];
      if accepted {
        table := table[KeyOf(record) := record];
      }
    }
  }
}
