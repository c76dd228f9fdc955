# IAM access key rotator, modelled in Dafny

The key rotator consists of two AWS Lambda functions.

- **Rotation side.** `src/creator.py`:
  - lists every IAM user, page by page;
  - reads each user's tags and keeps the users whose tags name a `notification_channel`;
  - lists those users' access keys.
  - For a user with exactly one key that is older than its rotation age, it:
    - creates a new key pair;
    - sends the pair to the user by e-mail or Slack;
    - writes a deletion record for the superseded key into the schedule table, due at UTC midnight of today plus `DAYS_FOR_DELETION` days.
- **Deletion side.** `src/destructor.py` receives the table's change stream. For each record removed from the table, it deletes the key from IAM.
  - If the delete succeeds, it tells the user on the channel stored in the record.
  - If the delete fails, it puts the record back with `delete_on` moved `RETRY_AFTER_MINS` minutes later.

## How the model is built

The project has five files:

| File | Module | Contents |
|---|---|---|
| `wrappers.dfy` | `Wrappers` | `Option` |
| `pytext.dfy` | `PyText` | The Python built-ins the core relies on: `str.lower` (ASCII), `str.split`, `str.join`, `int()` on a string, the insertion-ordered `dict` (`Dict`: keys in order, and a map), and `sorted` on integers. |
| `backend.dfy` | `Backend` | The collaborators (see below). |
| `creator.dfy` | `Creator` | The rotation side. |
| `destructor.dfy` | `Destructor` | The deletion side. |

The collaborators in `backend.dfy` are IAM, the DynamoDB schedule table, and the mail and Slack senders. They form one class, `Services`, which holds two things:

- **`calls`**: a log of every call made, each stored with the answer it received.
- **`table`**: the schedule table, a map keyed by `(user, ak)`. An accepted put replaces the item under its key.

The operations that call IAM's key operations, the senders or the table are module-level methods that take the `Services` object and change it. Each such method is proved against a specification function.

The other operations take the collaborators' answers as parameters and return values: `ListUsers`, `AddPage`, `FilterNotificationEnabled`, `AttachKeys`, `FetchUserDetails`, `FetchUsersWithNotificationEnabled` and `ReadTag`.

- The method's `ensures` clauses say two things:
  - `calls` grows by exactly the spec function's call sequence;
  - `table` becomes `Apply(old table, that sequence)`.
- Separate lemmas then prove the source's properties about those spec functions.

The collaborators' answers are parameters:

| Parameter | What it gives |
|---|---|
| `pages` | The answers to successive `list_users` calls. |
| `listTags` | The answer of `list_user_tags`, for each user. |
| `listKeys` | The answer of `list_access_keys`, for each user. |
| `issue` | IAM's answer to each `create_access_key`. |
| `stored` | Whether each put was accepted. |
| `deleted` | Whether each `delete_access_key` succeeded. |
| `now` | The clock, in epoch seconds. |

Where the stated behaviour and the code differ, the model follows the code.

- The record's `delete_on` is midnight UTC of the current day plus 10 days, not the current time plus 10 days. So it lies in `(now + 9 days, now + 10 days]`, and it is a multiple of 86400.
- `rotate_after_days` is accepted whenever `int()` accepts it, including zero and negative values. It is not required to be positive.

## Model

| member | source | states |
|---|---|---|
| PyText.SplitJoin | src/creator.py:62 | the fields of `split('_')` contain no `_`, and joining them with `_` gives back the key |
| PyText.SplitLower | src/creator.py:61-62 | splitting a lower-cased key on `_` gives the lower-cased fields of the original key, field for field |
| PyText.ParseIntDecimal | src/creator.py:212 | `int()` reads back every integer written in decimal |
| PyText.ParseIntLower | src/creator.py:62 | `int()` gives the same result on a string and on its lower-cased form |
| PyText.DictPut | src/creator.py:62 | dict assignment: the key maps to the new value; a present key keeps its place, a new key goes last |
| PyText.DictPop | src/creator.py:113 | `users.pop(u)` removes `u` and keeps every other entry |
| PyText.Sorted | src/creator.py:36 | `sorted` returns a non-decreasing list of the same length and the same elements as its input |
| PyText.SortedPermutation | src/creator.py:36 | `sorted` returns a permutation of its input: every element as often as it occurs |
| PyText.SortedDistinct | src/creator.py:36 | `sorted` of distinct positions is strictly increasing |
| PyText.IncreasingUnique | src/creator.py:36 | two strictly increasing listings of the same positions are equal |
| Backend.ScheduleTwice | src/creator.py:157-176 | two puts under the same `(user, ak)` leave one item, the later one |
| Backend.ApplyOnlyTouches | src/creator.py:157-176 | calls whose accepted puts all target one key leave every other item of the table unchanged |
| Backend.ApplyValid | src/creator.py:157-176 | every item stays stored under its own `(user, ak)`, whatever the calls |
| Backend.Services.PutItem | src/creator.py:157-176 | `put_item` logs the put; when accepted, it replaces the item under the record's key; otherwise the table is unchanged |
| Creator.LastValueIsLastMatch | src/creator.py:48-59 | a value is found exactly when some tag key lower-cases to the name, and it is the value of the last such tag |
| Creator.RecognisedIsLastTag | src/creator.py:48-59 | each of `notification_channel`, `email`, `slack_url`, `rotate_after` is present exactly when a tag with that key appears, in any case (`rotate_after` comes from `rotate_after_days`); it holds the last such tag's value, and no other attribute is set |
| Creator.PrepareInstructionOrder | src/creator.py:35-38 | the instruction is the fragments in ascending order of position, joined by single spaces, whatever order they were tagged in |
| Creator.PrepareInstructionEmpty | src/creator.py:35-38 | without fragments, the joined instruction is empty |
| Creator.NoInstructionTags | src/creator.py:64-67 | a user without `instruction_` tags gets the instruction `''` |
| Creator.ParseTags | src/creator.py:64-72 | an enabled user's attributes always hold `notification_channel` and `instruction` |
| Creator.InstructionDictIsLastFragment | src/creator.py:61-62 | `keyUpdateInstructions` holds a position exactly when some tag key lower-cases to `instruction_...` and gives that position; its text is that of the last such tag |
| Creator.ParseTagsInstruction | src/creator.py:35-67 | an enabled user's `instruction` is the last fragment text of each tagged position, in ascending order of position, joined by single spaces; `''` without fragments |
| Creator.FetchUsersWithNotificationEnabled | src/creator.py:46-72 | the tag loop returns exactly `ParseTags` of the tags: enabled with the attributes, disabled, or the `ValueError` of an unreadable fragment position |
| Creator.EnabledIffChannelTag | src/creator.py:46-72 | a user is enabled exactly when some tag key is `notification_channel` in any case and every fragment position is an integer; the channel is the last such tag's value |
| Creator.TagKeysIgnoreCase | src/creator.py:48-62 | changing the case of tag keys never changes the outcome |
| Creator.InstructionIndexLower | src/creator.py:61-62 | reading the position from the original key gives the same result as reading it from the lower-cased key |
| Creator.RotationAgeFromTag | src/creator.py:211-212 | the rotation age is `ACCESS_KEY_AGE` (80) without the tag, and the tagged number of days when it is present |
| Creator.DeleteOn | src/creator.py:156-173 | `delete_on` is a multiple of 86400 and lies in `(now + 9 days, now + 10 days]` |
| Creator.DeleteOnSameDay | src/creator.py:156-173 | two rotations on the same UTC day schedule the same `delete_on`: the time of day does not matter |
| Creator.DeleteOnNextDay | src/creator.py:156-173 | rotating one day later schedules the deletion exactly 86400 s later |
| Creator.NotifyCalls | src/creator.py:181-201 | channel `email` with an `email` attribute: an e-mail of the new key to that address; `slack` with `slack_url`: a Slack message of it to that URL. Either is followed by a put scheduling the old key with that channel and endpoint. Anything else: no call at all |
| Creator.MarkKeyForDestroy | src/creator.py:154-179 | puts the record `(user, ak, channel, endpoint, DeleteOn(now))`; the item replaces the one under `(user, ak)` only when the put is accepted |
| Creator.NotifyUser | src/creator.py:181-201 | the calls made are exactly `NotifyCalls` for the user's first key, and the table changes accordingly |
| Creator.CreateUserKey | src/creator.py:203-224 | the calls made are exactly `RotationCalls`, and the table is the old table with those calls applied |
| Creator.LoopCreatesIffDue | src/creator.py:210-218 | the key loop creates a key exactly when some key is strictly older than the rotation age; it does nothing otherwise, and its first call is that create |
| Creator.RotationIffDue | src/creator.py:203-224 | a user causes any call exactly when it has keys and attributes, the number of keys is neither 0 nor 2, the rotation age parses, and some key is older than the rotation age |
| Creator.SingleKeyRotation | src/creator.py:210-222 | single key: a create is made exactly when `age > rotation age`; a refused create is the only call; an issued key on a supported channel gives the create, the notice (an e-mail to `email` or a Slack message to `slack_url`, as the channel says) and the put, and the table gains the old key's record only when the put is accepted |
| Creator.LoopSchedulesFirstKey | src/creator.py:210-222 | within the loop, every put schedules `keys[0]` on the user's channel and endpoint, right after a successful create and the notice of that new key |
| Creator.ScheduledKeyIsFirstKey | src/creator.py:188-199 | a rotation only ever schedules the user's first key, and only after creating a key and sending its notice |
| Creator.RotationTouchesOnlyFirstKey | src/creator.py:188-199 | a rotation leaves every table item other than `(user, keys[0])` unchanged |
| Creator.LoopWithoutEndpoint | src/creator.py:184-201 | with an unsupported channel or a missing endpoint, the only calls are creates: nothing is sent and nothing is scheduled |
| Creator.FirstFinal | src/creator.py:94-103 | the last `list_users` call is the first answer that is an error or has no `Marker` |
| Creator.RequestsPassMarkers | src/creator.py:94-103 | the first `list_users` call passes no `Marker`; each later call passes the `Marker` of the page before it |
| Creator.AddUsersMembers | src/creator.py:97-98 | after a page, the users are the earlier ones plus the page's names, each of these with the empty entry |
| Creator.ListingMembers | src/creator.py:94-103 | the listed users are exactly those on the answered pages, each with the empty entry |
| Creator.AddPage | src/creator.py:97-98 | the loop over a page's users gives `AddUsers` of that page |
| Creator.ListUsers | src/creator.py:92-103 | the pagination loop's requests are `Requests`, its users are `Listed`, and it fails exactly when the last answer is a `ClientError` |
| Creator.FilterNotificationEnabled | src/creator.py:106-116 | users whose tags name no channel are popped and enabled ones get their attributes. It ends early on the first `ClientError` or malformed fragment position, and it completes exactly when every user's tags are readable |
| Creator.AttachKeys | src/creator.py:118-124 | each user gets the keys IAM listed, until a `ClientError`; it completes exactly when every user's keys are listable |
| Creator.ListedConsistent | src/creator.py:94-104 | the listing alone is a consistent result |
| Creator.TaggedConsistent | src/creator.py:106-116 | the dict after the tag phase is consistent |
| Creator.KeyedConsistent | src/creator.py:118-124 | the dict after the key phase is consistent |
| Creator.KeyedComplete | src/creator.py:118-128 | with every answer available, the result holds exactly the enabled users, each with its attributes and keys |
| Creator.FetchUserDetails | src/creator.py:89-128 | the requests pass the markers. Any returned dict is consistent with the answers, and a failed listing returns the users listed so far. The result is a crash only after a malformed fragment position, and always after one when every tag list could be read. With every answer, the dict is exactly the enabled users with their attributes and keys |
| Destructor.DeletionNotice | src/destructor.py:50-57 | one deletion notice to the endpoint, an e-mail exactly for `email` and a Slack message exactly for `slack`; nothing for any other channel |
| Destructor.NotifyUser | src/destructor.py:50-57 | the calls made are exactly `DeletionNotice`, and the table is unchanged |
| Destructor.DestroyUserKey | src/destructor.py:59-101 | makes exactly the calls of `DestroyCalls`, and the table changes accordingly; it aborts exactly for a `REMOVE` without a readable image, or with no readable `delete_on` after a failed delete |
| Destructor.DestroyUserKeys | src/destructor.py:103-105 | records are processed one after another in list order, up to the first one that aborts; it aborts exactly when some record aborts |
| Destructor.AbortsFromIff | src/destructor.py:103-105 | the batch aborts exactly when one of its records aborts |
| Destructor.UnreadableImageAborts | src/destructor.py:60-65 | a `REMOVE` whose image lacks a field read before the delete makes no call and ends the batch |
| Destructor.OtherEventSkipped | src/destructor.py:100-105 | a record that is not `REMOVE` makes no call and does not abort, and the batch goes on with the next record |
| Destructor.BatchIgnoresOtherEvents | src/destructor.py:100-105 | a run of records that are not `REMOVE` at the end of a batch makes no delete, no notice and no write |
| Destructor.DeletedKeyIsNotified | src/destructor.py:66-75 | after a successful delete of the image's `(user, ak)` the batch goes on; for channel `email` one e-mail to the stored endpoint, for `slack` one Slack message to it, otherwise no notice; no table write |
| Destructor.FailedDeleteReschedules | src/destructor.py:76-98 | after a failed delete, with `delete_on` readable, there is no notice and one put of the same `(user, ak)`, channel and endpoint, with `delete_on` 300 s later; the batch goes on |
| Destructor.FailedDeleteWithoutDeadline | src/destructor.py:76-95 | after a failed delete, with `delete_on` missing, the delete is the only call and the batch ends |
| Destructor.BatchStopsAtAbort | src/destructor.py:59-105 | nothing after the first aborting record is processed |
| Destructor.BatchOrdering | src/destructor.py:103-105 | in a batch, every notice comes right after the successful delete of that key, and every put comes right after the failed delete of the key it re-puts |
| Destructor.RetriesAccumulate | src/destructor.py:94-96 | after `k` failed attempts on the same item, the table holds it due `k * 300` s after its first deadline |
| Destructor.BatchSplit | src/destructor.py:103-105 | a batch is its first `n` records followed by the rest, when none of the first `n` aborts |

## Left out

- `src/shared.py` is not part of this model. Nor are the bodies of the e-mail and Slack messages, the SES and Mailgun clients, or Slack itself. Failures inside their `try` blocks are caught and only logged, so a send is a call with no answer.
- NotifyCalls: the rotation-side `send_email` looks up the account (`shared.fetch_account_info`, src/creator.py:131-132) before its `try`. The model takes that lookup to succeed. If it raised (no account alias, `AWS_ACCOUNT_ID` unset, or a `ClientError`), the error would escape to src/creator.py:223. No e-mail would go out, `mark_key_for_destroy` would be skipped, and the key loop would end. The lookup's environment and IAM answer lie outside the code modelled here.
- The calls into boto3 are abstract. Each call's answer is a parameter, and only the answers the core branches on are modelled: `ClientError` or success, and the created pair.
- Thread pools:
  - the `ThreadPoolExecutor` fan-out and `create_user_keys` are left out, because they add only concurrency;
  - the `as_completed` loops take the results in the dict's order;
  - each user's rotation is one sequential call of `CreateUserKey`.
- The Lambda handlers and the loading of the environment are left out. `DAYS_FOR_DELETION`, `ACCESS_KEY_AGE` and `RETRY_AFTER_MINS` are integers at their default values (10, 80, 5).
- The clock is an input.
  - `date.today()` is taken as the UTC day of `now`.
  - A key's age in days is an input. `fetch_user_keys` and its `datetime` arithmetic are left out.
- Pagination of `list_user_tags` and `list_access_keys` is left out. The code reads only their first page.
- `int()`:
  - accepts ASCII digits, an optional sign, and surrounding ASCII whitespace;
  - does not accept digit-group underscores or non-ASCII digits.
- `str.lower()` is modelled on ASCII letters only.
- The re-put after a failed delete is modelled as the intended, accepted write.
  - The code passes the item as `Key=` rather than `Item=`.
  - The call sits outside any `try`.
  - The model claims nothing about how DynamoDB treats that call.
- `delete_on` is an integer. Its conversion to and from DynamoDB's string form `N` is left out.
- A change record whose image lacks `user`, `ak`, `notification_channel` or `notification_endpoint` counts as a `REMOVE` without an image: it raises `KeyError` before any call and ends the batch. A missing `delete_on`, or one `int()` refuses, is a separate case: it matters only after a failed delete, and there it ends the batch (`FailedDeleteWithoutDeadline`). Other malformed shapes (a missing `dynamodb` or `OldImage`, a missing `'S'` wrapper) are not distinguished from a missing field.
- FetchUserDetails: after a `ClientError` in the tag or key phase, the contract says only that the partial dict is consistent with the answers. It does not say which users had already been processed, because the real order is that of `as_completed`.
- ListUsers: requires that some `list_users` answer is an error or has no `Marker` (`Terminates`). A service that returns a `Marker` forever would keep the `while True` loop (src/creator.py:94-103) running; the model does not cover that run.
