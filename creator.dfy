/**
 * The rotation side of the key rotator: read every IAM user's tags, keep the users that
 * name a notification channel, fetch their access keys, issue a new key for a user whose
 * single key is older than its rotation age, tell the user, and schedule the old key for
 * deletion in the schedule table.
 */
module Creator {
  import opened Wrappers
  import opened PyText
  import opened Backend

  /** `DAYS_FOR_DELETION`: how many days the superseded key lives on. */
  const DaysForDeletion: int := 10

  /** `ACCESS_KEY_AGE`: the rotation age, in days, of a user without a `rotate_after_days` tag. */
  const AccessKeyAge: int := 80

  const SecondsPerDay: int := 24 * 60 * 60

  // ================================================================ tags

  datatype Tag = Tag(key: string, value: string)

  /** `userAttributes`: attribute name to tag value. */
  type Attributes = map<string, string>

  /** The value of the last tag whose key, lower-cased, is `name`. */
  function LastValue(tags: seq<Tag>, name: string): Option<string>
    decreases |tags|
  {
    if |tags| == 0 then None
    else if Lower(tags[|tags| - 1].key) == name then Some(tags[|tags| - 1].value)
    else LastValue(tags[..|tags| - 1], name)
  }

  /** `tags[i]` matches `name` and no later tag does. */
  predicate IsLastMatch(tags: seq<Tag>, name: string, i: int)
  {
    0 <= i < |tags| && Lower(tags[i].key) == name && forall j :: i < j < |tags| ==> Lower(tags[j].key) != name
  }

  /** `LastValue` finds a value exactly when some tag matches, and then it is the value of the last match. */
  lemma {:induction false} LastValueIsLastMatch(tags: seq<Tag>, name: string)
    ensures LastValue(tags, name).Some? <==> exists i :: 0 <= i < |tags| && Lower(tags[i].key) == name
    ensures LastValue(tags, name).Some? ==>
              exists i :: IsLastMatch(tags, name, i) && tags[i].value == LastValue(tags, name).value
    decreases |tags|
  {
    if |tags| > 0 {
      var n := |tags| - 1;
      if Lower(tags[n].key) == name {
        assert IsLastMatch(tags, name, n) && tags[n].value == LastValue(tags, name).value;
      } else {
        var init := tags[..n];
        LastValueIsLastMatch(init, name);
        assert LastValue(tags, name) == LastValue(init, name);
        if LastValue(init, name).Some? {
          var i :| IsLastMatch(init, name, i) && init[i].value == LastValue(init, name).value;
          assert init[i] == tags[i];
          forall j | i < j < |tags|
            ensures Lower(tags[j].key) != name
          {
            if j < n {
              assert init[j] == tags[j];
            }
          }
          assert IsLastMatch(tags, name, i) && tags[i].value == LastValue(tags, name).value;
        }
        if exists i :: 0 <= i < |tags| && Lower(tags[i].key) == name {
          var i :| 0 <= i < |tags| && Lower(tags[i].key) == name;
          assert i < n && init[i] == tags[i];
        }
      }
    }
  }

  /** For each of the four recognised attributes, the tag it is read from. */
  const TagFor: map<string, string> :=
    map["notification_channel" := "notification_channel", "email" := "email",
        "slack_url" := "slack_url", "rotate_after" := "rotate_after_days"]

  /** The four `if t['Key'].lower() == ...` tests of the tag loop, applied to one tag. */
  function Absorb(a: Attributes, t: Tag): Attributes
  {
    var k := Lower(t.key);
    if k == "notification_channel" then a["notification_channel" := t.value]
    else if k == "email" then a["email" := t.value]
    else if k == "slack_url" then a["slack_url" := t.value]
    else if k == "rotate_after_days" then a["rotate_after" := t.value]
    else a
  }

  /** The recognised attributes of a tag list, the tags absorbed in order. */
  function RecognisedAttributes(tags: seq<Tag>): Attributes
    decreases |tags|
  {
    if |tags| == 0 then map[] else Absorb(RecognisedAttributes(tags[..|tags| - 1]), tags[|tags| - 1])
  }

  /**
   * Each recognised attribute is present exactly when some tag names it, in any case, and
   * then holds the value of the last such tag; nothing else is recorded.
   */
  lemma {:induction false} RecognisedIsLastTag(tags: seq<Tag>, a: string)
    ensures a in RecognisedAttributes(tags) ==> a in TagFor
    ensures a in TagFor ==> (a in RecognisedAttributes(tags) <==> LastValue(tags, TagFor[a]).Some?)
    ensures a in TagFor && a in RecognisedAttributes(tags) ==>
              RecognisedAttributes(tags)[a] == LastValue(tags, TagFor[a]).value
    decreases |tags|
  {
    if |tags| > 0 {
      var init, t := tags[..|tags| - 1], tags[|tags| - 1];
      RecognisedIsLastTag(init, a);
      AbsorbAttribute(RecognisedAttributes(init), t, a);
    }
  }

  /** How one tag changes one attribute. */
  lemma AbsorbAttribute(m: Attributes, t: Tag, a: string)
    ensures a in TagFor ==> (a in Absorb(m, t) <==> a in m || Lower(t.key) == TagFor[a])
    ensures a in TagFor && a in Absorb(m, t) ==> Absorb(m, t)[a] == if Lower(t.key) == TagFor[a] then t.value else m[a]
    ensures a !in TagFor ==> (a in Absorb(m, t) <==> a in m)
  {
  }

  /** A key that lower-cases to `instruction_...` carries one fragment of the update instruction. */
  predicate IsInstructionKey(key: string)
  {
    StartsWith(Lower(key), "instruction_")
  }

  /** `int(key.split('_')[1])`: the fragment's position, or `None` where `int()` raises. */
  function InstructionIndex(key: string): Option<int>
  {
    var parts := Split(key, '_');
    if |parts| < 2 then None else ParseInt(parts[1])
  }

  predicate BadInstruction(t: Tag)
  {
    IsInstructionKey(t.key) && InstructionIndex(t.key).None?
  }

  /** `keyUpdateInstructions`: fragment position to fragment text, the last tag for a position winning. */
  function InstructionDict(tags: seq<Tag>): (d: Dict<int, string>)
    ensures DictValid(d)
    decreases |tags|
  {
    if |tags| == 0 then EmptyDict()
    else
      var d := InstructionDict(tags[..|tags| - 1]);
      var t := tags[|tags| - 1];
      if IsInstructionKey(t.key) && InstructionIndex(t.key).Some? then DictPut(d, InstructionIndex(t.key).value, t.value)
      else d
  }

  function ValuesAt(m: map<int, string>, ks: seq<int>): seq<string>
    requires forall i :: 0 <= i < |ks| ==> ks[i] in m
  {
    seq(|ks|, i requires 0 <= i < |ks| => m[ks[i]])
  }

  /** `prepare_instruction`: the fragments in ascending order of position, joined by single spaces. */
  function PrepareInstruction(d: Dict<int, string>): string
    requires DictValid(d)
  {
    ValuesJoined(d.items, Sorted(d.keys))
  }

  function ValuesJoined(m: map<int, string>, ks: seq<int>): string
    requires forall i :: 0 <= i < |ks| ==> ks[i] in m
  {
    Join(ValuesAt(m, ks), " ")
  }

  /**
   * Whatever order the fragments were tagged in, the instruction lists them by ascending
   * position: `ks` is any strictly increasing list of exactly the positions present.
   */
  lemma PrepareInstructionOrder(d: Dict<int, string>, ks: seq<int>)
    requires DictValid(d)
    requires Increasing(ks)
    requires forall i :: 0 <= i < |ks| ==> ks[i] in d.items
    requires forall k :: k in d.items ==> k in ks
    ensures PrepareInstruction(d) == Join(ValuesAt(d.items, ks), " ")
  {
    assert forall k :: k in ks ==> k in d.items;
    SortedDistinct(d.keys);
    IncreasingUnique(Sorted(d.keys), ks);
  }

  /** Without fragments the instruction is empty. */
  lemma PrepareInstructionEmpty(d: Dict<int, string>)
    requires DictValid(d) && d.keys == []
    ensures PrepareInstruction(d) == ""
  {
  }

  /** The `instruction` attribute: `''` when there are no fragments. */
  function InstructionText(d: Dict<int, string>): string
    requires DictValid(d)
  {
    if |d.keys| > 0 then PrepareInstruction(d) else ""
  }

  /** What `fetch_users_with_notification_enabled` does with a user's tags. */
  datatype TagOutcome =
    | Enabled(attributes: Attributes)  // `(True, user, userAttributes)`
    | Disabled                         // `(False, user, None)`
    | Malformed                        // an `instruction_` key whose position is not an integer: `ValueError`

  /** Reading one more tag: one more `Absorb` and, for a fragment, one more `DictPut`. */
  lemma TagLoopStep(tags: seq<Tag>, i: nat)
    requires i < |tags|
    ensures RecognisedAttributes(tags[..i + 1]) == Absorb(RecognisedAttributes(tags[..i]), tags[i])
    ensures InstructionDict(tags[..i + 1]) ==
              var d := InstructionDict(tags[..i]);
              if IsInstructionKey(tags[i].key) && InstructionIndex(tags[i].key).Some?
              then DictPut(d, InstructionIndex(tags[i].key).value, tags[i].value) else d
  {
    assert tags[..i + 1][..i] == tags[..i];
  }

  /** None of the four attribute tags is an instruction fragment. */
  lemma AttributeKeyNotFragment(key: string)
    ensures (Lower(key) == "notification_channel" || Lower(key) == "email" ||
             Lower(key) == "slack_url" || Lower(key) == "rotate_after_days") ==> !IsInstructionKey(key)
  {
    var k := Lower(key);
    if k == "notification_channel" || k == "rotate_after_days" {
      assert k[..12][0] != "instruction_"[0];
    }
  }

  /** The outcome of reading a tag list, stated without the loop. */
  function ParseTags(tags: seq<Tag>): (r: TagOutcome)
    ensures r.Enabled? ==> "notification_channel" in r.attributes && "instruction" in r.attributes
  {
    if exists i :: 0 <= i < |tags| && BadInstruction(tags[i]) then Malformed
    else
      var attrs := RecognisedAttributes(tags)["instruction" := InstructionText(InstructionDict(tags))];
      if "notification_channel" in attrs then Enabled(attrs) else Disabled
  }

  /** One pass of the tag loop; `bad` is the `ValueError` of a fragment whose position is not an integer. */
  method ReadTag(attributes: Attributes, instructions: Dict<int, string>, t: Tag)
    returns (userAttributes: Attributes, keyUpdateInstructions: Dict<int, string>, bad: bool)
    requires DictValid(instructions)
    ensures bad <==> BadInstruction(t)
    ensures !bad ==> userAttributes == Absorb(attributes, t)
    ensures !bad ==> keyUpdateInstructions ==
                       if IsInstructionKey(t.key) then DictPut(instructions, InstructionIndex(t.key).value, t.value)
                       else instructions
  {
    AttributeKeyNotFragment(t.key);
    userAttributes, keyUpdateInstructions, bad := attributes, instructions, false;
    var key := Lower(t.key);
    // the five tests exclude one another, so each tag takes at most one branch
    if key == "notification_channel" {
      userAttributes := userAttributes["notification_channel" := t.value];
    } else if key == "email" {
      userAttributes := userAttributes["email" := t.value];
    } else if key == "slack_url" {
      userAttributes := userAttributes["slack_url" := t.value];
    } else if key == "rotate_after_days" {
      userAttributes := userAttributes["rotate_after" := t.value];
    } else if StartsWith(key, "instruction_") {
      var index := InstructionIndex(t.key);
      if index.None? {
        return attributes, instructions, true;
      }
      keyUpdateInstructions := DictPut(keyUpdateInstructions, index.value, t.value);
    }
  }

  /** The tag loop of `fetch_users_with_notification_enabled`, given the `list_user_tags` answer. */
  method FetchUsersWithNotificationEnabled(tags: seq<Tag>) returns (r: TagOutcome)
    ensures r == ParseTags(tags)
  {
    var userAttributes: Attributes := map[];
    var keyUpdateInstructions: Dict<int, string> := EmptyDict();
    var i := 0;
    while i < |tags|
      invariant 0 <= i <= |tags|
      invariant userAttributes == RecognisedAttributes(tags[..i])
      invariant keyUpdateInstructions == InstructionDict(tags[..i])
      invariant forall k :: 0 <= k < i ==> !BadInstruction(tags[k])
    {
      var t := tags[i];
      TagLoopStep(tags, i);
      var bad;
      userAttributes, keyUpdateInstructions, bad := ReadTag(userAttributes, keyUpdateInstructions, t);
      if bad {
        // int() raises ValueError, which nothing here catches
        return Malformed;
      }
      forall k | 0 <= k < i + 1
        ensures !BadInstruction(tags[k])
      {
        if k == i {
          assert t == tags[k];
        }
      }
      i := i + 1;
    }
    assert tags[..|tags|] == tags;
    if |keyUpdateInstructions.keys| > 0 {
      userAttributes := userAttributes["instruction" := PrepareInstruction(keyUpdateInstructions)];
    } else {
      userAttributes := userAttributes["instruction" := ""];
    }
    if "notification_channel" in userAttributes {
      return Enabled(userAttributes);
    }
    return Disabled;
  }

  /**
   * A user is returned as enabled exactly when some tag key is `notification_channel` in
   * any case (and no instruction position is malformed); the channel is the last such tag's value.
   */
  lemma EnabledIffChannelTag(tags: seq<Tag>)
    ensures ParseTags(tags).Enabled? <==>
              (forall i :: 0 <= i < |tags| ==> !BadInstruction(tags[i])) &&
              (exists i :: 0 <= i < |tags| && Lower(tags[i].key) == "notification_channel")
    ensures ParseTags(tags).Enabled? ==>
              LastValue(tags, "notification_channel") == Some(ParseTags(tags).attributes["notification_channel"])
  {
    assert TagFor["notification_channel"] == "notification_channel";
    RecognisedIsLastTag(tags, "notification_channel");
    LastValueIsLastMatch(tags, "notification_channel");
    var ch := LastValue(tags, "notification_channel");
    var recognised := RecognisedAttributes(tags);
    assert "notification_channel" in recognised <==> ch.Some?;
    var attrs := recognised["instruction" := InstructionText(InstructionDict(tags))];
    assert "notification_channel" in attrs <==> ch.Some?;
  }

  /** Tag `t` carries the fragment for position `p`. */
  predicate IsFragmentAt(t: Tag, p: int)
  {
    IsInstructionKey(t.key) && InstructionIndex(t.key) == Some(p)
  }

  /** `tags[i]` carries the fragment for `p` and no later tag does. */
  predicate IsLastFragment(tags: seq<Tag>, p: int, i: int)
  {
    0 <= i < |tags| && IsFragmentAt(tags[i], p) && forall j :: i < j < |tags| ==> !IsFragmentAt(tags[j], p)
  }

  /**
   * `keyUpdateInstructions` holds a position exactly when some tag carries a fragment for
   * it, and then the text of the last such tag: a later tag for a position overwrites an earlier one.
   */
  lemma {:induction false} InstructionDictIsLastFragment(tags: seq<Tag>, p: int)
    ensures p in InstructionDict(tags).items <==> exists i :: 0 <= i < |tags| && IsFragmentAt(tags[i], p)
    ensures p in InstructionDict(tags).items ==>
              exists i :: IsLastFragment(tags, p, i) && tags[i].value == InstructionDict(tags).items[p]
    decreases |tags|
  {
    if |tags| > 0 {
      var n := |tags| - 1;
      var init := tags[..n];
      InstructionDictIsLastFragment(init, p);
      assert forall j :: 0 <= j < n ==> init[j] == tags[j];
      if IsFragmentAt(tags[n], p) {
        assert InstructionDict(tags).items[p] == tags[n].value;
        assert IsLastFragment(tags, p, n);
      } else {
        assert p in InstructionDict(tags).items <==> p in InstructionDict(init).items;
        if p in InstructionDict(init).items {
          assert InstructionDict(tags).items[p] == InstructionDict(init).items[p];
          var i :| IsLastFragment(init, p, i) && init[i].value == InstructionDict(init).items[p];
          assert IsLastFragment(tags, p, i);
        }
        if exists i :: 0 <= i < |tags| && IsFragmentAt(tags[i], p) {
          var i :| 0 <= i < |tags| && IsFragmentAt(tags[i], p);
          assert i < n && init[i] == tags[i];
        }
      }
    }
  }

  /**
   * The `instruction` attribute of an enabled user: the text of the last fragment tag for
   * each position, `vs`, taken in ascending order of position, `ks`, and joined by single
   * spaces; `''` when there is no fragment tag.
   */
  lemma ParseTagsInstruction(tags: seq<Tag>, ks: seq<int>, vs: seq<string>)
    requires ParseTags(tags).Enabled?
    requires Increasing(ks)
    requires forall p :: p in ks <==> exists i :: 0 <= i < |tags| && IsFragmentAt(tags[i], p)
    requires |vs| == |ks|
    requires forall n :: 0 <= n < |ks| ==> exists i :: IsLastFragment(tags, ks[n], i) && tags[i].value == vs[n]
    ensures ParseTags(tags).attributes["instruction"] == Join(vs, " ")
  {
    var d := InstructionDict(tags);
    forall p
      ensures p in d.items <==> p in ks
      ensures p in d.items ==> exists i :: IsLastFragment(tags, p, i) && tags[i].value == d.items[p]
    {
      InstructionDictIsLastFragment(tags, p);
    }
    forall n | 0 <= n < |ks|
      ensures d.items[ks[n]] == vs[n]
    {
      var i :| IsLastFragment(tags, ks[n], i) && tags[i].value == vs[n];
      var i' :| IsLastFragment(tags, ks[n], i') && tags[i'].value == d.items[ks[n]];
      assert i == i';
    }
    assert ValuesAt(d.items, ks) == vs;
    assert |ks| == 0 || ks[0] in d.items;
    if |d.keys| > 0 {
      PrepareInstructionOrder(d, ks);
    }
  }

  /** A user without instruction tags gets the empty instruction. */
  lemma {:induction false} NoInstructionTags(tags: seq<Tag>)
    requires forall i :: 0 <= i < |tags| ==> !IsInstructionKey(tags[i].key)
    ensures InstructionDict(tags).keys == []
    ensures ParseTags(tags).Enabled? ==> ParseTags(tags).attributes["instruction"] == ""
    decreases |tags|
  {
    if |tags| > 0 {
      var init := tags[..|tags| - 1];
      assert forall i :: 0 <= i < |init| ==> init[i] == tags[i];
      NoInstructionTags(init);
    }
  }

  lemma InstructionIndexLower(key: string)
    ensures InstructionIndex(Lower(key)) == InstructionIndex(key)
  {
    SplitLower(key);
    var parts := Split(key, '_');
    if |parts| >= 2 {
      ParseIntLower(parts[1]);
    }
  }

  lemma {:induction false} LastValueIgnoresCase(tags: seq<Tag>, other: seq<Tag>, name: string)
    requires |tags| == |other|
    requires forall i :: 0 <= i < |tags| ==> Lower(tags[i].key) == Lower(other[i].key) && tags[i].value == other[i].value
    ensures LastValue(tags, name) == LastValue(other, name)
    decreases |tags|
  {
    if |tags| > 0 {
      LastValueIgnoresCase(tags[..|tags| - 1], other[..|other| - 1], name);
    }
  }

  lemma {:induction false} InstructionDictIgnoresCase(tags: seq<Tag>, other: seq<Tag>)
    requires |tags| == |other|
    requires forall i :: 0 <= i < |tags| ==> Lower(tags[i].key) == Lower(other[i].key) && tags[i].value == other[i].value
    ensures InstructionDict(tags) == InstructionDict(other)
    decreases |tags|
  {
    if |tags| > 0 {
      InstructionDictIgnoresCase(tags[..|tags| - 1], other[..|other| - 1]);
      var k := tags[|tags| - 1].key;
      var k' := other[|other| - 1].key;
      InstructionIndexLower(k);
      InstructionIndexLower(k');
    }
  }

  lemma {:induction false} RecognisedIgnoresCase(tags: seq<Tag>, other: seq<Tag>)
    requires |tags| == |other|
    requires forall i :: 0 <= i < |tags| ==> Lower(tags[i].key) == Lower(other[i].key) && tags[i].value == other[i].value
    ensures RecognisedAttributes(tags) == RecognisedAttributes(other)
    decreases |tags|
  {
    if |tags| > 0 {
      RecognisedIgnoresCase(tags[..|tags| - 1], other[..|other| - 1]);
    }
  }

  /** Tag keys are matched without regard to case: only the lower-cased keys and the values matter. */
  lemma TagKeysIgnoreCase(tags: seq<Tag>, other: seq<Tag>)
    requires |tags| == |other|
    requires forall i :: 0 <= i < |tags| ==> Lower(tags[i].key) == Lower(other[i].key) && tags[i].value == other[i].value
    ensures ParseTags(tags) == ParseTags(other)
  {
    RecognisedIgnoresCase(tags, other);
    InstructionDictIgnoresCase(tags, other);
    forall i | 0 <= i < |tags|
      ensures BadInstruction(tags[i]) <==> BadInstruction(other[i])
    {
      InstructionIndexLower(tags[i].key);
      InstructionIndexLower(other[i].key);
    }
  }

  // ================================================================ rotation

  /** One entry of `AccessKeyMetadata`: the key's id and its age in whole days. */
  datatype AccessKey = AccessKey(ak: string, ageDays: int)

  /**
   * One entry of the `users` dict: `{}`, then `'attributes'` once the tags are read, then
   * `'keys'` once the keys are listed.
   */
  datatype Entry = Entry(attributes: Option<Attributes>, keys: Option<seq<AccessKey>>)

  /** Attributes, where present, are those of an enabled user: they name a channel and an instruction. */
  predicate WellFormedEntry(e: Entry)
  {
    e.attributes.Some? ==> "notification_channel" in e.attributes.value && "instruction" in e.attributes.value
  }

  /** `int(rotate_after)` when the tag is present, else `ACCESS_KEY_AGE`; `None` where `int()` raises. */
  function RotationAge(attrs: Attributes): Option<int>
  {
    if "rotate_after" in attrs then ParseInt(attrs["rotate_after"]) else Some(AccessKeyAge)
  }

  /**
   * `delete_on`: midnight (UTC) of the day the key is rotated, plus `DAYS_FOR_DELETION` days;
   * `now` is the current time in epoch seconds, the host clock taken to run on UTC.
   */
  function DeleteOn(now: int): (r: int)
    ensures r % SecondsPerDay == 0
    ensures now + (DaysForDeletion - 1) * SecondsPerDay < r <= now + DaysForDeletion * SecondsPerDay
  {
    (now / SecondsPerDay) * SecondsPerDay + DaysForDeletion * SecondsPerDay
  }

  /** Two rotations on the same (UTC) day schedule the same deletion time. */
  lemma DeleteOnSameDay(now: int, later: int)
    requires now <= later && later / SecondsPerDay == now / SecondsPerDay
    ensures DeleteOn(now) == DeleteOn(later)
  {
  }

  /** A rotation one day later schedules the deletion exactly one day later. */
  lemma DeleteOnNextDay(now: int)
    ensures DeleteOn(now + SecondsPerDay) == DeleteOn(now) + SecondsPerDay
  {
    assert (now + SecondsPerDay) / SecondsPerDay == now / SecondsPerDay + 1;
  }

  /** The record `mark_key_for_destroy` writes. */
  function RecordFor(userName: string, ak: string, channel: string, endpoint: string, now: int): DeletionRecord
  {
    DeletionRecord(userName, ak, channel, endpoint, DeleteOn(now))
  }

  /**
   * What `notify_user` does after `newAk` was issued to replace `oldAk`: on a supported
   * channel with its endpoint, notify and then schedule `oldAk`; otherwise nothing.
   * `stored` is whether the put was accepted.
   */
  function NotifyCalls(userName: string, attrs: Attributes, oldAk: string, newAk: string, secret: string,
                       stored: bool, now: int): (r: seq<Call>)
    requires "notification_channel" in attrs && "instruction" in attrs
    ensures |r| == 0 || |r| == 2
    ensures |r| == 2 <==> ChannelEndpoint(attrs).Some?
    ensures |r| == 2 ==>
              IsNotification(r[0]) && r[0].notice == NewKeyNotice(userName, newAk, secret, attrs["instruction"], oldAk) &&
              r[0] == Notification(attrs, NewKeyNotice(userName, newAk, secret, attrs["instruction"], oldAk)) &&
              r[1] == PutItem(RecordFor(userName, oldAk, attrs["notification_channel"], ChannelEndpoint(attrs).value, now), stored)
  {
    var channel := attrs["notification_channel"];
    var notice := NewKeyNotice(userName, newAk, secret, attrs["instruction"], oldAk);
    if channel == "email" then
      if "email" in attrs then
        [SendEmail(attrs["email"], notice), PutItem(RecordFor(userName, oldAk, "email", attrs["email"], now), stored)]
      else []
    else if channel == "slack" then
      if "slack_url" in attrs then
        [NotifySlack(attrs["slack_url"], notice), PutItem(RecordFor(userName, oldAk, "slack", attrs["slack_url"], now), stored)]
      else []
    else []
  }

  /**
   * The `for k in user['keys']` loop from the `i`-th key on: a key older than `age` days
   * gets a replacement; a refused `create_access_key` raises and ends the loop.
   * `issue(i)` is IAM's answer to the create made while looking at the `i`-th key and
   * `stored(i)` the answer to the put that follows it.
   */
  function KeyLoopCalls(userName: string, attrs: Attributes, keys: seq<AccessKey>, i: nat, age: int,
                        issue: nat -> KeyOutcome, stored: nat -> bool, now: int): seq<Call>
    requires "notification_channel" in attrs && "instruction" in attrs
    requires 0 < |keys| && i <= |keys|
    decreases |keys| - i
  {
    if i == |keys| then []
    else if keys[i].ageDays <= age then KeyLoopCalls(userName, attrs, keys, i + 1, age, issue, stored, now)
    else match issue(i)
      case Refused => [CreateAccessKey(userName, Refused)]
      case Issued(ak, secret) =>
        [CreateAccessKey(userName, issue(i))]
          + NotifyCalls(userName, attrs, keys[0].ak, ak, secret, stored(i), now)
          + KeyLoopCalls(userName, attrs, keys, i + 1, age, issue, stored, now)
  }

  /**
   * Everything `create_user_key` does for one user: nothing without keys, nothing with 0 or
   * 2 keys, nothing when a `KeyError` or an unparsable rotation age is caught; otherwise the loop.
   */
  function RotationCalls(userName: string, user: Entry, issue: nat -> KeyOutcome, stored: nat -> bool, now: int): seq<Call>
    requires WellFormedEntry(user)
  {
    match user.keys
    case None => []
    case Some(keys) =>
      if |keys| == 0 || |keys| == 2 then []
      else match user.attributes
        case None => []
        case Some(attrs) =>
          match RotationAge(attrs)
          case None => []
          case Some(age) => KeyLoopCalls(userName, attrs, keys, 0, age, issue, stored, now)
  }

  /** `mark_key_for_destroy`: put the deletion record; a failed put is caught and logged. */
  method MarkKeyForDestroy(services: Services, userName: string, ak: string, channel: string, endpoint: string,
                           now: int, accepted: bool)
    requires services.Valid()
    modifies services
    ensures services.Valid()
    ensures services.calls == old(services.calls) + [PutItem(RecordFor(userName, ak, channel, endpoint, now), accepted)]
    ensures services.table ==
              if accepted then old(services.table)[(userName, ak) := RecordFor(userName, ak, channel, endpoint, now)]
              else old(services.table)
  {
    var today := (now / SecondsPerDay) * SecondsPerDay;
    var record := DeletionRecord(userName, ak, channel, endpoint, today + DaysForDeletion * SecondsPerDay);
    services.PutItem(record, accepted);
  }

  /** `notify_user`: tell the user about `newAk` on their channel, then schedule their first key. */
  method NotifyUser(services: Services, user: Entry, userName: string, newAk: string, secret: string,
                    stored: bool, now: int)
    requires services.Valid()
    requires WellFormedEntry(user) && user.attributes.Some? && user.keys.Some? && |user.keys.value| > 0
    modifies services
    ensures services.Valid()
    ensures services.calls ==
              old(services.calls) + NotifyCalls(userName, user.attributes.value, user.keys.value[0].ak, newAk, secret, stored, now)
    ensures services.table ==
              Apply(old(services.table), NotifyCalls(userName, user.attributes.value, user.keys.value[0].ak, newAk, secret, stored, now))
  {
    var attrs := user.attributes.value;
    var oldAk := user.keys.value[0].ak;
    var channel := attrs["notification_channel"];
    var notice := NewKeyNotice(userName, newAk, secret, attrs["instruction"], oldAk);
    ghost var t0 := services.table;
    if channel == "email" {
      if "email" in attrs {
        services.SendEmail(attrs["email"], notice);
        MarkKeyForDestroy(services, userName, oldAk, "email", attrs["email"], now, stored);
        ApplyPair(t0, SendEmail(attrs["email"], notice), PutItem(RecordFor(userName, oldAk, "email", attrs["email"], now), stored));
      }
    } else if channel == "slack" {
      if "slack_url" in attrs {
        services.NotifySlack(attrs["slack_url"], notice);
        MarkKeyForDestroy(services, userName, oldAk, "slack", attrs["slack_url"], now, stored);
        ApplyPair(t0, NotifySlack(attrs["slack_url"], notice), PutItem(RecordFor(userName, oldAk, "slack", attrs["slack_url"], now), stored));
      }
    }
  }

  /** `create_user_key`: for a single-key user whose key is due, issue a new key and notify. */
  method CreateUserKey(services: Services, userName: string, user: Entry, issue: nat -> KeyOutcome,
                       stored: nat -> bool, now: int)
    requires services.Valid() && WellFormedEntry(user)
    modifies services
    ensures services.Valid()
    ensures services.calls == old(services.calls) + RotationCalls(userName, user, issue, stored, now)
    ensures services.table == Apply(old(services.table), RotationCalls(userName, user, issue, stored, now))
  {
    if user.keys.None? {
      return;  // KeyError: 'keys', caught and logged
    }
    var keys := user.keys.value;
    if |keys| == 0 {
      return;
    } else if |keys| == 2 {
      return;
    }
    if user.attributes.None? {
      return;  // KeyError: 'attributes', caught and logged
    }
    var attrs := user.attributes.value;
    ghost var total := RotationCalls(userName, user, issue, stored, now);
    ghost var age0 := RotationAge(attrs);
    ghost var calls0, table0 := services.calls, services.table;
    assert age0.Some? ==> total == KeyLoopCalls(userName, attrs, keys, 0, age0.value, issue, stored, now);
    var i := 0;
    while i < |keys|
      invariant 0 <= i <= |keys|
      invariant services.Valid()
      invariant age0.None? ==> i == 0 && services.calls == calls0 && services.table == table0
      invariant age0.Some? ==>
                  calls0 + total == services.calls + KeyLoopCalls(userName, attrs, keys, i, age0.value, issue, stored, now)
      invariant age0.Some? ==>
                  Apply(table0, total) == Apply(services.table, KeyLoopCalls(userName, attrs, keys, i, age0.value, issue, stored, now))
    {
      var rotationAge := RotationAge(attrs);
      if rotationAge.None? {
        return;  // int() raises ValueError, caught and logged
      }
      var age := rotationAge.value;
      if keys[i].ageDays > age {
        var outcome := issue(i);
        ghost var t, before := services.table, services.calls;
        services.CreateAccessKey(userName, outcome);
        if outcome.Refused? {
          assert KeyLoopCalls(userName, attrs, keys, i, age, issue, stored, now) == [CreateAccessKey(userName, Refused)];
          assert Apply(t, [CreateAccessKey(userName, Refused)]) == t;
          return;  // the error is caught and logged: the loop ends
        }
        NotifyUser(services, user, userName, outcome.ak, outcome.secret, stored(i), now);
        LoopStep(userName, attrs, keys, i, age, issue, stored, now, t);
        ghost var notify := NotifyCalls(userName, attrs, keys[0].ak, outcome.ak, outcome.secret, stored(i), now);
        ghost var step := [CreateAccessKey(userName, outcome)] + notify;
        AppendAssoc(before, [CreateAccessKey(userName, outcome)], notify);
        AppendAssoc(before, step, KeyLoopCalls(userName, attrs, keys, i + 1, age, issue, stored, now));
      } else {
        assert KeyLoopCalls(userName, attrs, keys, i, age, issue, stored, now) == KeyLoopCalls(userName, attrs, keys, i + 1, age, issue, stored, now);
      }
      i := i + 1;
    }
  }

  // ---------------------------------------------------------------- properties of a rotation

  predicate HasCreate(calls: seq<Call>)
  {
    exists j :: 0 <= j < |calls| && calls[j].CreateAccessKey?
  }

  /** The endpoint `notify_user` sends to and records: `None` when the channel is unsupported or its endpoint missing. */
  function ChannelEndpoint(attrs: Attributes): Option<string>
    requires "notification_channel" in attrs
  {
    var channel := attrs["notification_channel"];
    if channel == "email" && "email" in attrs then Some(attrs["email"])
    else if channel == "slack" && "slack_url" in attrs then Some(attrs["slack_url"])
    else None
  }

  /** The message carrying `notice` on the user's channel: an e-mail to `email` for `email`, else a Slack message to `slack_url`. */
  function Notification(attrs: Attributes, notice: Notice): Call
    requires "notification_channel" in attrs && ChannelEndpoint(attrs).Some?
  {
    if attrs["notification_channel"] == "email" then SendEmail(attrs["email"], notice) else NotifySlack(attrs["slack_url"], notice)
  }

  /**
   * From the `i`-th key on, the loop calls IAM at all exactly when some remaining key is
   * older than the rotation age, and then a create comes first.
   */
  lemma {:induction false} LoopCreatesIffDue(userName: string, attrs: Attributes, keys: seq<AccessKey>, i: nat, age: int,
                                             issue: nat -> KeyOutcome, stored: nat -> bool, now: int)
    requires "notification_channel" in attrs && "instruction" in attrs
    requires 0 < |keys| && i <= |keys|
    ensures var calls := KeyLoopCalls(userName, attrs, keys, i, age, issue, stored, now);
      (HasCreate(calls) <==> exists k :: i <= k < |keys| && keys[k].ageDays > age) &&
      (calls != [] <==> HasCreate(calls)) &&
      (calls != [] ==> calls[0].CreateAccessKey? && calls[0].user == userName)
    decreases |keys| - i
  {
    var calls := KeyLoopCalls(userName, attrs, keys, i, age, issue, stored, now);
    if i < |keys| {
      LoopCreatesIffDue(userName, attrs, keys, i + 1, age, issue, stored, now);
      if keys[i].ageDays > age {
        assert calls[0] == CreateAccessKey(userName, issue(i));
      }
    }
  }

  /**
   * `create_user_key` does anything at all only for a user whose keys were listed, who has
   * neither 0 nor 2 keys, whose rotation age parses, and who has a key older than it.
   */
  lemma RotationIffDue(userName: string, user: Entry, issue: nat -> KeyOutcome, stored: nat -> bool, now: int)
    requires WellFormedEntry(user)
    ensures var calls := RotationCalls(userName, user, issue, stored, now);
      (calls != [] <==>
         user.keys.Some? && |user.keys.value| != 0 && |user.keys.value| != 2 && user.attributes.Some? &&
         RotationAge(user.attributes.value).Some? &&
         exists k :: 0 <= k < |user.keys.value| && user.keys.value[k].ageDays > RotationAge(user.attributes.value).value) &&
      (calls != [] ==> calls[0].CreateAccessKey? && calls[0].user == userName)
  {
    if user.keys.Some? && |user.keys.value| != 0 && |user.keys.value| != 2 && user.attributes.Some? &&
       RotationAge(user.attributes.value).Some? {
      var attrs := user.attributes.value;
      var age := RotationAge(attrs).value;
      LoopCreatesIffDue(userName, attrs, user.keys.value, 0, age, issue, stored, now);
    }
  }

  /** Every put schedules `oldAk` of `userName`, with the endpoint of the user's channel. */
  predicate PutsScheduleKey(calls: seq<Call>, userName: string, attrs: Attributes, oldAk: string, now: int)
    requires "notification_channel" in attrs
  {
    forall j :: 0 <= j < |calls| && calls[j].PutItem? ==>
      ChannelEndpoint(attrs).Some? &&
      calls[j].record == RecordFor(userName, oldAk, attrs["notification_channel"], ChannelEndpoint(attrs).value, now)
  }

  /** Every put comes right after a successful create and the notice of the key it issued. */
  predicate PutsFollowNotices(calls: seq<Call>, userName: string, attrs: Attributes, oldAk: string)
    requires "instruction" in attrs
  {
    forall j :: 0 <= j < |calls| && calls[j].PutItem? ==>
      2 <= j && calls[j - 2].CreateAccessKey? && calls[j - 2].user == userName && calls[j - 2].outcome.Issued? &&
      IsNotification(calls[j - 1]) &&
      calls[j - 1].notice == NewKeyNotice(userName, calls[j - 2].outcome.ak, calls[j - 2].outcome.secret, attrs["instruction"], oldAk)
  }

  /** One due key with an issued replacement: the create, the notice and the put, then the rest of the loop. */
  lemma LoopStep(userName: string, attrs: Attributes, keys: seq<AccessKey>, i: nat, age: int,
                 issue: nat -> KeyOutcome, stored: nat -> bool, now: int, t: Table)
    requires "notification_channel" in attrs && "instruction" in attrs
    requires 0 < |keys| && i < |keys| && keys[i].ageDays > age && issue(i).Issued?
    ensures var notify := NotifyCalls(userName, attrs, keys[0].ak, issue(i).ak, issue(i).secret, stored(i), now);
            var rest := KeyLoopCalls(userName, attrs, keys, i + 1, age, issue, stored, now);
            KeyLoopCalls(userName, attrs, keys, i, age, issue, stored, now) == [CreateAccessKey(userName, issue(i))] + notify + rest &&
            Apply(t, KeyLoopCalls(userName, attrs, keys, i, age, issue, stored, now)) == Apply(Apply(t, notify), rest)
  {
    var head := [CreateAccessKey(userName, issue(i))];
    var notify := NotifyCalls(userName, attrs, keys[0].ak, issue(i).ak, issue(i).secret, stored(i), now);
    var rest := KeyLoopCalls(userName, attrs, keys, i + 1, age, issue, stored, now);
    ApplyAppend(t, head + notify, rest);
    ApplyAppend(t, head, notify);
    assert Apply(t, head) == t by {
      assert head[1..] == [];
    }
  }

  /**
   * Within the loop, every put schedules the user's first key with the endpoint just
   * notified, and comes right after a successful create and the notice of that new key.
   */
  lemma {:induction false} LoopSchedulesFirstKey(userName: string, attrs: Attributes, keys: seq<AccessKey>, i: nat, age: int,
                                                 issue: nat -> KeyOutcome, stored: nat -> bool, now: int)
    requires "notification_channel" in attrs && "instruction" in attrs
    requires 0 < |keys| && i <= |keys|
    ensures PutsScheduleKey(KeyLoopCalls(userName, attrs, keys, i, age, issue, stored, now), userName, attrs, keys[0].ak, now)
    ensures PutsFollowNotices(KeyLoopCalls(userName, attrs, keys, i, age, issue, stored, now), userName, attrs, keys[0].ak)
    decreases |keys| - i
  {
    if i < |keys| {
      LoopSchedulesFirstKey(userName, attrs, keys, i + 1, age, issue, stored, now);
      if keys[i].ageDays > age && issue(i).Issued? {
        var head := [CreateAccessKey(userName, issue(i))];
        var notify := NotifyCalls(userName, attrs, keys[0].ak, issue(i).ak, issue(i).secret, stored(i), now);
        var rest := KeyLoopCalls(userName, attrs, keys, i + 1, age, issue, stored, now);
        assert KeyLoopCalls(userName, attrs, keys, i, age, issue, stored, now) == head + notify + rest;
        IssueStepPuts(userName, attrs, keys[0].ak, issue(i), stored(i), now);
        PutsAppend(head + notify, rest, userName, attrs, keys[0].ak, now);
      }
    }
  }

  /** The create of an issued key and its notice meet both orderings. */
  lemma IssueStepPuts(userName: string, attrs: Attributes, oldAk: string, outcome: KeyOutcome, stored: bool, now: int)
    requires "notification_channel" in attrs && "instruction" in attrs && outcome.Issued?
    ensures var calls := [CreateAccessKey(userName, outcome)] + NotifyCalls(userName, attrs, oldAk, outcome.ak, outcome.secret, stored, now);
            PutsScheduleKey(calls, userName, attrs, oldAk, now) && PutsFollowNotices(calls, userName, attrs, oldAk)
  {
    var notify := NotifyCalls(userName, attrs, oldAk, outcome.ak, outcome.secret, stored, now);
    var calls := [CreateAccessKey(userName, outcome)] + notify;
    forall j | 0 <= j < |calls| && calls[j].PutItem?
      ensures j == 2 && calls[0] == CreateAccessKey(userName, outcome) && calls[1] == notify[0] && calls[2] == notify[1]
    {
      assert calls[j] == notify[j - 1];
    }
  }

  /** Both orderings survive concatenation, since neither can hold of a sequence whose first call is a put. */
  lemma PutsAppend(a: seq<Call>, b: seq<Call>, userName: string, attrs: Attributes, oldAk: string, now: int)
    requires "notification_channel" in attrs && "instruction" in attrs
    requires PutsScheduleKey(a, userName, attrs, oldAk, now) && PutsFollowNotices(a, userName, attrs, oldAk)
    requires PutsScheduleKey(b, userName, attrs, oldAk, now) && PutsFollowNotices(b, userName, attrs, oldAk)
    ensures PutsScheduleKey(a + b, userName, attrs, oldAk, now) && PutsFollowNotices(a + b, userName, attrs, oldAk)
  {
    var calls := a + b;
    forall j | 0 <= j < |calls| && calls[j].PutItem?
      ensures 2 <= j && calls[j - 2].CreateAccessKey? && calls[j - 2].user == userName && calls[j - 2].outcome.Issued?
      ensures IsNotification(calls[j - 1])
      ensures calls[j - 1].notice == NewKeyNotice(userName, calls[j - 2].outcome.ak, calls[j - 2].outcome.secret, attrs["instruction"], oldAk)
      ensures ChannelEndpoint(attrs).Some?
      ensures calls[j].record == RecordFor(userName, oldAk, attrs["notification_channel"], ChannelEndpoint(attrs).value, now)
    {
      if j < |a| {
        assert calls[j] == a[j] && calls[j - 1] == a[j - 1] && calls[j - 2] == a[j - 2];
      } else {
        var j' := j - |a|;
        assert calls[j] == b[j'];
        assert 2 <= j' && calls[j - 1] == b[j' - 1] && calls[j - 2] == b[j' - 2];
      }
    }
  }

  /**
   * A rotation only ever schedules the user's first key, `keys[0]`, for `DeleteOn(now)`, on
   * the user's channel with its endpoint, and only after creating a key and sending its notice.
   */
  lemma ScheduledKeyIsFirstKey(userName: string, user: Entry, issue: nat -> KeyOutcome, stored: nat -> bool, now: int)
    requires WellFormedEntry(user)
    ensures var calls := RotationCalls(userName, user, issue, stored, now);
      calls != [] ==>
        user.attributes.Some? && user.keys.Some? && |user.keys.value| > 0 &&
        PutsScheduleKey(calls, userName, user.attributes.value, user.keys.value[0].ak, now) &&
        PutsFollowNotices(calls, userName, user.attributes.value, user.keys.value[0].ak)
  {
    var calls := RotationCalls(userName, user, issue, stored, now);
    if calls != [] {
      var attrs := user.attributes.value;
      LoopSchedulesFirstKey(userName, attrs, user.keys.value, 0, RotationAge(attrs).value, issue, stored, now);
    }
  }

  /** A rotation changes the schedule table at most at `(userName, keys[0].ak)`. */
  lemma RotationTouchesOnlyFirstKey(userName: string, user: Entry, issue: nat -> KeyOutcome, stored: nat -> bool, now: int,
                                    t: Table)
    requires WellFormedEntry(user) && user.keys.Some? && |user.keys.value| > 0
    ensures var after := Apply(t, RotationCalls(userName, user, issue, stored, now));
      var key := (userName, user.keys.value[0].ak);
      (forall k :: k != key ==> (k in after <==> k in t)) &&
      (forall k :: k != key && k in t ==> after[k] == t[k])
  {
    var calls := RotationCalls(userName, user, issue, stored, now);
    ScheduledKeyIsFirstKey(userName, user, issue, stored, now);
    var key := (userName, user.keys.value[0].ak);
    forall j | 0 <= j < |calls| && calls[j].PutItem? && calls[j].accepted
      ensures KeyOf(calls[j].record) == key
    {
    }
    ApplyOnlyTouches(t, calls, key);
  }

  /** A user without channel endpoint still gets the new key, but no notice and no schedule. */
  lemma {:induction false} LoopWithoutEndpoint(userName: string, attrs: Attributes, keys: seq<AccessKey>, i: nat, age: int,
                                               issue: nat -> KeyOutcome, stored: nat -> bool, now: int)
    requires "notification_channel" in attrs && "instruction" in attrs && ChannelEndpoint(attrs).None?
    requires 0 < |keys| && i <= |keys|
    ensures var calls := KeyLoopCalls(userName, attrs, keys, i, age, issue, stored, now);
      forall j :: 0 <= j < |calls| ==> calls[j].CreateAccessKey? && calls[j].user == userName
    decreases |keys| - i
  {
    if i < |keys| {
      LoopWithoutEndpoint(userName, attrs, keys, i + 1, age, issue, stored, now);
      if keys[i].ageDays > age && issue(i).Issued? {
        LoopStep(userName, attrs, keys, i, age, issue, stored, now, map[]);
        var calls := KeyLoopCalls(userName, attrs, keys, i, age, issue, stored, now);
        var rest := KeyLoopCalls(userName, attrs, keys, i + 1, age, issue, stored, now);
        assert calls == [CreateAccessKey(userName, issue(i))] + rest;
      }
    }
  }

  /**
   * The usual case, a single key: it is rotated exactly when it is older than the rotation
   * age. A refused create is the only call; an issued key is announced, and the old key is
   * then scheduled — the table gains that one item when the put is accepted.
   */
  lemma SingleKeyRotation(userName: string, user: Entry, issue: nat -> KeyOutcome, stored: nat -> bool, now: int,
                          t: Table)
    requires WellFormedEntry(user) && user.attributes.Some? && user.keys.Some? && |user.keys.value| == 1
    requires RotationAge(user.attributes.value).Some?
    ensures var attrs, key, age := user.attributes.value, user.keys.value[0], RotationAge(user.attributes.value).value;
      var calls := RotationCalls(userName, user, issue, stored, now);
      (HasCreate(calls) <==> key.ageDays > age) &&
      (key.ageDays > age && issue(0).Refused? ==> calls == [CreateAccessKey(userName, Refused)]) &&
      (key.ageDays > age && issue(0).Issued? && ChannelEndpoint(attrs).Some? ==>
         |calls| == 3 && calls[0] == CreateAccessKey(userName, issue(0)) &&
         calls[1] == Notification(attrs, NewKeyNotice(userName, issue(0).ak, issue(0).secret, attrs["instruction"], key.ak)) &&
         Apply(t, calls) ==
           if stored(0) then t[(userName, key.ak) := RecordFor(userName, key.ak, attrs["notification_channel"], ChannelEndpoint(attrs).value, now)]
           else t)
  {
    var attrs, key, age := user.attributes.value, user.keys.value[0], RotationAge(user.attributes.value).value;
    var calls := RotationCalls(userName, user, issue, stored, now);
    LoopCreatesIffDue(userName, attrs, user.keys.value, 0, age, issue, stored, now);
    if key.ageDays > age && issue(0).Issued? {
      LoopStep(userName, attrs, user.keys.value, 0, age, issue, stored, now, t);
      var notify := NotifyCalls(userName, attrs, key.ak, issue(0).ak, issue(0).secret, stored(0), now);
      if |notify| == 2 {
        assert notify == [notify[0], notify[1]];
        ApplyPair(t, notify[0], notify[1]);
      }
    }
  }

  /** Without a `rotate_after_days` tag keys are rotated after `ACCESS_KEY_AGE` days; with one, after the days it gives. */
  lemma RotationAgeFromTag(attrs: Attributes, days: nat)
    ensures "rotate_after" !in attrs ==> RotationAge(attrs) == Some(AccessKeyAge)
    ensures "rotate_after" in attrs && attrs["rotate_after"] == Decimal(days) ==> RotationAge(attrs) == Some(days)
  {
    ParseIntDecimal(days);
  }

  // ================================================================ listing the users

  /** One `list_users` page: the user names and the `Marker` for the next page, if any. */
  datatype Page = Page(users: seq<string>, marker: Option<string>)

  /** A collaborator's answer: the value, or a `ClientError`. */
  datatype Response<T> = Ok(value: T) | ClientError

  /** After this answer the listing loop stops: an error, or a page without `Marker`. */
  predicate Final(p: Response<Page>)
  {
    p.ClientError? || p.value.marker.None?
  }

  /** The answers to successive `list_users` calls end with a final one. */
  predicate Terminates(pages: seq<Response<Page>>)
  {
    exists n :: 0 <= n < |pages| && Final(pages[n])
  }

  function FirstFinalFrom(pages: seq<Response<Page>>, i: nat): (n: nat)
    requires i <= |pages| && exists k :: i <= k < |pages| && Final(pages[k])
    ensures i <= n < |pages| && Final(pages[n])
    ensures forall k :: i <= k < n ==> !Final(pages[k])
    decreases |pages| - i
  {
    if Final(pages[i]) then i else FirstFinalFrom(pages, i + 1)
  }

  /** The index of the last `list_users` call made. */
  function FirstFinal(pages: seq<Response<Page>>): (n: nat)
    requires Terminates(pages)
    ensures n < |pages| && Final(pages[n])
    ensures forall k :: 0 <= k < n ==> !Final(pages[k])
  {
    FirstFinalFrom(pages, 0)
  }

  /** `users[name] = {}` for each name, in order. */
  function AddUsers(d: Dict<string, Entry>, names: seq<string>): (r: Dict<string, Entry>)
    requires DictValid(d)
    ensures DictValid(r)
    decreases |names|
  {
    if |names| == 0 then d else DictPut(AddUsers(d, names[..|names| - 1]), names[|names| - 1], Entry(None, None))
  }

  /** Adding names keeps the users already there and adds each name with the empty entry. */
  lemma {:induction false} AddUsersMembers(d: Dict<string, Entry>, names: seq<string>)
    requires DictValid(d)
    ensures var r := AddUsers(d, names);
      (forall u :: u in r.items <==> u in d.items || u in names) &&
      (forall u :: u in r.items ==> r.items[u] == if u in names then Entry(None, None) else d.items[u])
    decreases |names|
  {
    if |names| > 0 {
      var init, last := names[..|names| - 1], names[|names| - 1];
      AddUsersMembers(d, init);
      assert names == init + [last];
      var r := AddUsers(d, names);
      forall u
        ensures u in r.items <==> u in d.items || u in names
        ensures u in r.items ==> r.items[u] == if u in names then Entry(None, None) else d.items[u]
      {
        assert u in names <==> u in init || u == last;
      }
    }
  }

  /**
   * The `users` dict after the first `n` `list_users` answers: every user of every page,
   * each with the empty entry.
   */
  function Listing(pages: seq<Response<Page>>, n: nat): (d: Dict<string, Entry>)
    requires n <= |pages|
    ensures DictValid(d)
  {
    if n == 0 then EmptyDict()
    else
      var d := Listing(pages, n - 1);
      if pages[n - 1].Ok? then AddUsers(d, pages[n - 1].value.users) else d
  }

  /** `u` is on one of the first `n` pages that were answered. */
  predicate OnPage(pages: seq<Response<Page>>, n: nat, u: string)
    requires n <= |pages|
  {
    exists k :: 0 <= k < n && pages[k].Ok? && u in pages[k].value.users
  }

  /** Exactly the users of the pages that were answered are listed, each with the empty entry. */
  lemma {:induction false} ListingMembers(pages: seq<Response<Page>>, n: nat)
    requires n <= |pages|
    ensures forall u :: u in Listing(pages, n).items <==> OnPage(pages, n, u)
    ensures forall u :: u in Listing(pages, n).items ==> Listing(pages, n).items[u] == Entry(None, None)
  {
    if n > 0 {
      var prev := Listing(pages, n - 1);
      ListingMembers(pages, n - 1);
      if pages[n - 1].Ok? {
        AddUsersMembers(prev, pages[n - 1].value.users);
      }
      forall u
        ensures u in Listing(pages, n).items <==> OnPage(pages, n, u)
      {
        if u in Listing(pages, n).items && u !in prev.items {
          assert pages[n - 1].Ok? && u in pages[n - 1].value.users;
        }
        if OnPage(pages, n, u) {
          var k :| 0 <= k < n && pages[k].Ok? && u in pages[k].value.users;
          if k < n - 1 {
            assert OnPage(pages, n - 1, u);
          }
        }
      }
    }
  }

  /** Every user named by any of the `list_users` pages actually requested. */
  function Listed(pages: seq<Response<Page>>): Dict<string, Entry>
    requires Terminates(pages)
  {
    Listing(pages, FirstFinal(pages) + 1)
  }

  /** The `Marker` parameter of the `i`-th `list_users` call: none for the first, then the previous page's. */
  function MarkerParam(pages: seq<Response<Page>>, i: nat): Option<string>
    requires i <= |pages| && (i > 0 ==> pages[i - 1].Ok?)
  {
    if i == 0 then None else pages[i - 1].value.marker
  }

  /** The parameters of the first `n` `list_users` calls. */
  function Requests(pages: seq<Response<Page>>, n: nat): seq<Option<string>>
    requires n <= |pages| && forall k :: 0 <= k < n - 1 ==> pages[k].Ok?
  {
    if n == 0 then [] else Requests(pages, n - 1) + [MarkerParam(pages, n - 1)]
  }

  /** The first call passes no `Marker`; every later call passes the `Marker` of the page before it. */
  lemma {:induction false} RequestsPassMarkers(pages: seq<Response<Page>>, n: nat)
    requires n <= |pages| && forall k :: 0 <= k < n - 1 ==> pages[k].Ok?
    ensures |Requests(pages, n)| == n
    ensures n > 0 ==> Requests(pages, n)[0] == None
    ensures forall k :: 0 < k < n ==> Requests(pages, n)[k] == pages[k - 1].value.marker
  {
    if n > 0 {
      RequestsPassMarkers(pages, n - 1);
    }
  }

  /** `for u in resp['Users']: users[u['UserName']] = {}`. */
  method AddPage(users0: Dict<string, Entry>, page: seq<string>) returns (users: Dict<string, Entry>)
    requires DictValid(users0)
    ensures users == AddUsers(users0, page)
  {
    users := users0;
    var j := 0;
    while j < |page|
      invariant 0 <= j <= |page|
      invariant users == AddUsers(users0, page[..j])
    {
      assert page[..j + 1][..j] == page[..j];
      users := DictPut(users, page[j], Entry(None, None));
      j := j + 1;
    }
    assert page[..|page|] == page;
  }

  /**
   * The `while True` loop over `list_users`: request pages, passing on each `Marker`, until
   * one has none; a `ClientError` ends the listing too. `pages[i]` is the answer to the `i`-th
   * call and `sent` the parameters of the calls made.
   */
  method ListUsers(pages: seq<Response<Page>>) returns (sent: seq<Option<string>>, users: Dict<string, Entry>, failed: bool)
    requires Terminates(pages)
    ensures sent == Requests(pages, FirstFinal(pages) + 1)
    ensures users == Listed(pages)
    ensures failed <==> pages[FirstFinal(pages)].ClientError?
  {
    ghost var n := FirstFinal(pages);
    users := EmptyDict();
    var params: Option<string> := None;
    sent := [];
    var i := 0;
    while true
      invariant 0 <= i <= n
      invariant sent == Requests(pages, i)
      invariant params == MarkerParam(pages, i)
      invariant users == Listing(pages, i)
      decreases n - i
    {
      var resp := pages[i];
      sent := sent + [params];
      if resp.ClientError? {
        // raised out of the loop and caught at the end of fetch_user_details
        assert i == n;
        return sent, users, true;
      }
      users := AddPage(users, resp.value.users);
      if resp.value.marker.None? {
        assert i == n;
        return sent, users, false;
      }
      params := resp.value.marker;
      i := i + 1;
    }
  }

  // ================================================================ tags and keys of the users

  /** Where the tag phase ended: all read, a `ClientError`, or a `ValueError` out of the tag loop. */
  datatype TagPhase = TagsRead | TagsFailed | TagsCrashed

  /** `u`'s tags were read and enable notification; its entry holds those attributes and no keys yet. */
  predicate Tagged(listTags: string -> Response<seq<Tag>>, u: string, e: Entry)
  {
    listTags(u).Ok? && ParseTags(listTags(u).value).Enabled? &&
    e == Entry(Some(ParseTags(listTags(u).value).attributes), None)
  }

  /** `u`'s tags were read and name no channel. */
  predicate Untagged(listTags: string -> Response<seq<Tag>>, u: string)
  {
    listTags(u).Ok? && ParseTags(listTags(u).value).Disabled?
  }

  predicate TagsReadable(listTags: string -> Response<seq<Tag>>, u: string)
  {
    listTags(u).Ok? && !ParseTags(listTags(u).value).Malformed?
  }

  /**
   * The `as_completed` loop over the tag results (taken in the dict's order): a user
   * without channel is popped, an enabled one gets its attributes. `listTags(u)` is the
   * answer to `list_user_tags` for `u`.
   */
  method FilterNotificationEnabled(users0: Dict<string, Entry>, listTags: string -> Response<seq<Tag>>)
    returns (users: Dict<string, Entry>, phase: TagPhase)
    requires DictValid(users0)
    requires forall u :: u in users0.items ==> users0.items[u] == Entry(None, None)
    ensures DictValid(users)
    ensures forall u :: u in users.items ==>
              u in users0.items && (users.items[u] == Entry(None, None) || Tagged(listTags, u, users.items[u]))
    ensures forall u :: u in users0.items && u !in users.items ==> Untagged(listTags, u)
    ensures phase.TagsRead? <==> forall u :: u in users0.items ==> TagsReadable(listTags, u)
    ensures phase.TagsRead? ==> forall u :: u in users.items ==> Tagged(listTags, u, users.items[u])
    ensures phase.TagsCrashed? ==>
              exists u :: u in users0.items && listTags(u).Ok? && ParseTags(listTags(u).value).Malformed?
    ensures phase.TagsFailed? ==> exists u :: u in users0.items && listTags(u).ClientError?
  {
    var names := users0.keys;
    users := users0;
    var k := 0;
    while k < |names|
      invariant 0 <= k <= |names|
      invariant DictValid(users)
      invariant forall u :: u in users.items ==>
                  u in users0.items && (users.items[u] == Entry(None, None) || Tagged(listTags, u, users.items[u]))
      invariant forall u :: u in users0.items && u !in users.items ==> Untagged(listTags, u)
      invariant forall j :: k <= j < |names| ==> names[j] in users.items && users.items[names[j]] == Entry(None, None)
      invariant forall j :: 0 <= j < k ==> TagsReadable(listTags, names[j])
      invariant forall j :: 0 <= j < k && names[j] in users.items ==> Tagged(listTags, names[j], users.items[names[j]])
    {
      var u := names[k];
      var resp := listTags(u);
      if resp.ClientError? {
        // f.result() raises; caught at the end of fetch_user_details
        return users, TagsFailed;
      }
      var outcome := FetchUsersWithNotificationEnabled(resp.value);
      if outcome.Malformed? {
        // the ValueError escapes fetch_user_details
        return users, TagsCrashed;
      }
      assert TagsReadable(listTags, u);
      assert forall j :: 0 <= j < |names| && j != k ==> names[j] != u;
      if outcome.Disabled? {
        users := DictPop(users, u);
      } else {
        users := DictPut(users, u, users.items[u].(attributes := Some(outcome.attributes)));
      }
      k := k + 1;
    }
    forall u | u in users0.items
      ensures TagsReadable(listTags, u)
      ensures u in users.items ==> Tagged(listTags, u, users.items[u])
    {
      assert u in names;
      var j :| 0 <= j < |names| && names[j] == u;
    }
    return users, TagsRead;
  }

  /**
   * The `as_completed` loop over the key results (taken in the dict's order): each user
   * gets the keys `list_access_keys` returned, until a `ClientError`.
   */
  method AttachKeys(users0: Dict<string, Entry>, listKeys: string -> Response<seq<AccessKey>>)
    returns (users: Dict<string, Entry>, failed: bool)
    requires DictValid(users0)
    ensures DictValid(users) && users.keys == users0.keys
    ensures forall u :: u in users.items ==>
              u in users0.items &&
              (users.items[u] == users0.items[u] ||
               (listKeys(u).Ok? && users.items[u] == users0.items[u].(keys := Some(listKeys(u).value))))
    ensures !failed <==> forall u :: u in users0.items ==> listKeys(u).Ok?
    ensures !failed ==> forall u :: u in users.items ==> users.items[u] == users0.items[u].(keys := Some(listKeys(u).value))
  {
    var names := users0.keys;
    users := users0;
    var k := 0;
    while k < |names|
      invariant 0 <= k <= |names|
      invariant DictValid(users) && users.keys == names
      invariant forall u :: u in users.items ==>
                  (users.items[u] == users0.items[u] ||
                   (listKeys(u).Ok? && users.items[u] == users0.items[u].(keys := Some(listKeys(u).value))))
      invariant forall j :: k <= j < |names| ==> users.items[names[j]] == users0.items[names[j]]
      invariant forall j :: 0 <= j < k ==>
                  listKeys(names[j]).Ok? && users.items[names[j]] == users0.items[names[j]].(keys := Some(listKeys(names[j]).value))
    {
      var u := names[k];
      var resp := listKeys(u);
      if resp.ClientError? {
        // f.result() raises; caught at the end of fetch_user_details
        return users, true;
      }
      users := DictPut(users, u, users.items[u].(keys := Some(resp.value)));
      k := k + 1;
    }
    forall u | u in users0.items
      ensures listKeys(u).Ok? && users.items[u] == users0.items[u].(keys := Some(listKeys(u).value))
    {
      assert u in names;
      var j :| 0 <= j < |names| && names[j] == u;
    }
    return users, false;
  }

  /** What `fetch_user_details` hands back: the `users` dict, or nothing when a `ValueError` escaped. */
  datatype Details = Details(users: Dict<string, Entry>) | Crashed

  /**
   * A `users` dict as `fetch_user_details` may return it: only listed users; attributes only
   * as their tags give them; keys only as IAM listed them and only for users with attributes;
   * a listed user dropped only when its tags name no channel.
   */
  ghost predicate Consistent(pages: seq<Response<Page>>, listTags: string -> Response<seq<Tag>>,
                             listKeys: string -> Response<seq<AccessKey>>, users: Dict<string, Entry>)
    requires Terminates(pages)
  {
    DictValid(users) &&
    (forall u :: u in users.items ==> u in Listed(pages).items && WellFormedEntry(users.items[u])) &&
    (forall u :: u in users.items && users.items[u].attributes.Some? ==>
       listTags(u).Ok? && ParseTags(listTags(u).value) == Enabled(users.items[u].attributes.value)) &&
    (forall u :: u in users.items && users.items[u].keys.Some? ==>
       users.items[u].attributes.Some? && listKeys(u) == Ok(users.items[u].keys.value)) &&
    (forall u :: u in Listed(pages).items && u !in users.items ==> Untagged(listTags, u))
  }

  /** Every `list_users` call answered, every listed user's tags readable, every enabled user's keys listable. */
  predicate AllAnswered(pages: seq<Response<Page>>, listTags: string -> Response<seq<Tag>>,
                        listKeys: string -> Response<seq<AccessKey>>)
    requires Terminates(pages)
  {
    pages[FirstFinal(pages)].Ok? &&
    forall u :: u in Listed(pages).items ==>
      TagsReadable(listTags, u) && (ParseTags(listTags(u).value).Enabled? ==> listKeys(u).Ok?)
  }

  /** With every answer in hand: exactly the enabled users, each with its attributes and its keys. */
  ghost predicate Complete(pages: seq<Response<Page>>, listTags: string -> Response<seq<Tag>>,
                           listKeys: string -> Response<seq<AccessKey>>, users: Dict<string, Entry>)
    requires Terminates(pages) && AllAnswered(pages, listTags, listKeys)
  {
    forall u :: u in Listed(pages).items ==>
      (u in users.items <==> ParseTags(listTags(u).value).Enabled?) &&
      (u in users.items ==>
         users.items[u] == Entry(Some(ParseTags(listTags(u).value).attributes), Some(listKeys(u).value)))
  }

  lemma ListedConsistent(pages: seq<Response<Page>>, listTags: string -> Response<seq<Tag>>,
                         listKeys: string -> Response<seq<AccessKey>>)
    requires Terminates(pages)
    ensures Consistent(pages, listTags, listKeys, Listed(pages))
  {
    ListingMembers(pages, FirstFinal(pages) + 1);
  }

  lemma TaggedConsistent(pages: seq<Response<Page>>, listTags: string -> Response<seq<Tag>>,
                         listKeys: string -> Response<seq<AccessKey>>, users: Dict<string, Entry>)
    requires Terminates(pages)
    requires DictValid(users)
    requires forall u :: u in users.items ==>
               u in Listed(pages).items && (users.items[u] == Entry(None, None) || Tagged(listTags, u, users.items[u]))
    requires forall u :: u in Listed(pages).items && u !in users.items ==> Untagged(listTags, u)
    ensures Consistent(pages, listTags, listKeys, users)
  {
  }

  lemma KeyedConsistent(pages: seq<Response<Page>>, listTags: string -> Response<seq<Tag>>,
                        listKeys: string -> Response<seq<AccessKey>>, tagged: Dict<string, Entry>, users: Dict<string, Entry>)
    requires Terminates(pages)
    requires forall u :: u in tagged.items ==> u in Listed(pages).items && Tagged(listTags, u, tagged.items[u])
    requires forall u :: u in Listed(pages).items && u !in tagged.items ==> Untagged(listTags, u)
    requires DictValid(users) && forall u :: u in users.items <==> u in tagged.items
    requires forall u :: u in users.items ==>
               (users.items[u] == tagged.items[u] ||
                (listKeys(u).Ok? && users.items[u] == tagged.items[u].(keys := Some(listKeys(u).value))))
    ensures Consistent(pages, listTags, listKeys, users)
  {
  }

  lemma KeyedComplete(pages: seq<Response<Page>>, listTags: string -> Response<seq<Tag>>,
                      listKeys: string -> Response<seq<AccessKey>>, tagged: Dict<string, Entry>, users: Dict<string, Entry>)
    requires Terminates(pages) && AllAnswered(pages, listTags, listKeys)
    requires forall u :: u in tagged.items ==> u in Listed(pages).items && Tagged(listTags, u, tagged.items[u])
    requires forall u :: u in Listed(pages).items && u !in tagged.items ==> Untagged(listTags, u)
    requires forall u :: u in users.items <==> u in tagged.items
    requires forall u :: u in users.items ==> listKeys(u).Ok? && users.items[u] == tagged.items[u].(keys := Some(listKeys(u).value))
    ensures Complete(pages, listTags, listKeys, users)
  {
    forall u | u in Listed(pages).items
      ensures u in users.items <==> ParseTags(listTags(u).value).Enabled?
      ensures u in users.items ==>
                users.items[u] == Entry(Some(ParseTags(listTags(u).value).attributes), Some(listKeys(u).value))
    {
      if u in tagged.items {
        assert Tagged(listTags, u, tagged.items[u]);
      } else {
        assert Untagged(listTags, u);
      }
    }
  }

  /**
   * `fetch_user_details`: list the users, keep those with a notification channel, and attach
   * their keys. A `ClientError` anywhere ends the work and the dict is returned as it stands;
   * a malformed instruction position makes the whole call fail.
   */
  method FetchUserDetails(pages: seq<Response<Page>>, listTags: string -> Response<seq<Tag>>,
                          listKeys: string -> Response<seq<AccessKey>>)
    returns (sent: seq<Option<string>>, result: Details)
    requires Terminates(pages)
    ensures sent == Requests(pages, FirstFinal(pages) + 1)
    ensures result.Details? ==> Consistent(pages, listTags, listKeys, result.users)
    ensures pages[FirstFinal(pages)].ClientError? ==> result == Details(Listed(pages))
    ensures result.Crashed? ==>
              exists u :: u in Listed(pages).items && listTags(u).Ok? && ParseTags(listTags(u).value).Malformed?
    ensures pages[FirstFinal(pages)].Ok? && (forall u :: u in Listed(pages).items ==> listTags(u).Ok?) ==>
              (result.Crashed? <==> exists u :: u in Listed(pages).items && ParseTags(listTags(u).value).Malformed?)
    ensures AllAnswered(pages, listTags, listKeys) ==> result.Details? && Complete(pages, listTags, listKeys, result.users)
  {
    var users, failed;
    sent, users, failed := ListUsers(pages);
    ListingMembers(pages, FirstFinal(pages) + 1);
    if failed {
      ListedConsistent(pages, listTags, listKeys);
      return sent, Details(users);
    }
    var tagged, phase := FilterNotificationEnabled(users, listTags);
    if phase.TagsCrashed? {
      return sent, Crashed;
    }
    if phase.TagsFailed? {
      TaggedConsistent(pages, listTags, listKeys, tagged);
      return sent, Details(tagged);
    }
    var withKeys, keysFailed := AttachKeys(tagged, listKeys);
    KeyedConsistent(pages, listTags, listKeys, tagged, withKeys);
    if AllAnswered(pages, listTags, listKeys) {
      KeyedComplete(pages, listTags, listKeys, tagged, withKeys);
    }
    return sent, Details(withKeys);
  }
}
