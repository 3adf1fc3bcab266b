/**
 What the notification handler does with ONE record, before it tries to
 deliver: take the SNS message text, decode it (unwrapping one extra layer of
 encoding), pick the dimensions `path`, `instanceid` and `fstype`, fill in
 the defaults for the alarm's name, state and reason, and lay all six out in
 the chat message. Every Python exception the handler would meet on the way
 is a `None` here: the handler then skips the record.
 */
module AlarmMessage {
  import opened JsonValues
  import Template

  /** The value a dimension lookup yields when nothing matches. */
  const Unknown: Json := JStr("unknown")

  /** ASCII case folding of one character. */
  function LowerChar(c: char): char
  {
    if 'A' <= c <= 'Z' then (c as int + 32) as char else c
  }

  /** `str.lower()`, restricted to ASCII letters. */
  function Lower(s: string): (r: string)
    ensures |r| == |s|
    ensures forall i :: 0 <= i < |r| ==> !('A' <= r[i] <= 'Z')
    ensures forall i :: 0 <= i < |s| && !('A' <= s[i] <= 'Z') ==> r[i] == s[i]
    ensures forall i :: 0 <= i < |s| && 'A' <= s[i] <= 'Z' ==> r[i] == (s[i] as int + 32) as char
  {
    seq(|s|, i requires 0 <= i < |s| => LowerChar(s[i]))
  }

  /** `d.get('name', '')` ready for `.lower()`: `None` where Python raises,
      because `d` is not a dict or its name is not a string. */
  function NameOf(d: Json): (r: Option<string>)
    ensures d.JObj? && Find(d.members, "name").None? ==> r == Some("")
    ensures d.JObj? && Find(d.members, "name").Some? && Find(d.members, "name").value.JStr? ==>
              r == Some(Find(d.members, "name").value.s)
    ensures d.JObj? && Find(d.members, "name").Some? && !Find(d.members, "name").value.JStr? ==> r.None?
    ensures r.Some? ==> d.JObj?
  {
    if !d.JObj? then None
    else match GetOr(d.members, "name", JStr(""))
      case JStr(n) => Some(n)
      case _ => None
  }

  /** The element is inspected without error and its name matches `key`. */
  predicate Matches(d: Json, key: string)
  {
    NameOf(d).Some? && Lower(NameOf(d).value) == key
  }

  /** The element is inspected without error and its name does not match. */
  predicate Passes(d: Json, key: string)
  {
    NameOf(d).Some? && Lower(NameOf(d).value) != key
  }

  /** Every element before position n is inspected and passed over. */
  predicate AllPass(items: seq<Json>, key: string, n: nat)
    requires n <= |items|
  {
    forall j :: 0 <= j < n ==> Passes(items[j], key)
  }

  /** `next((d['value'] for d in items if d.get('name', '').lower() == key), 'unknown')`
      over a list. */
  function LookupIn(items: seq<Json>, key: string): (r: Option<Json>)
    ensures items == [] ==> r == Some(Unknown)
    ensures r.Some? && r != Some(Unknown) ==>
              exists i :: 0 <= i < |items| && Matches(items[i], key) && r == Index(items[i], "value")
  {
    if items == [] then Some(Unknown)
    else match NameOf(items[0])
      case None => None
      case Some(n) => if Lower(n) == key then Index(items[0], "value") else LookupIn(items[1..], key)
  }

  /** The first matching element decides: its `value`, or an error when it
      has none; elements after it are never looked at. */
  lemma {:induction false} LookupInFirstMatch(items: seq<Json>, key: string, i: nat)
    requires i < |items| && AllPass(items, key, i) && Matches(items[i], key)
    ensures LookupIn(items, key) == Index(items[i], "value")
  {
    if i > 0 {
      assert Passes(items[0], key);
      assert AllPass(items[1..], key, i - 1) by {
        forall j | 0 <= j < i - 1 ensures Passes(items[1..][j], key) {
          assert items[1..][j] == items[j + 1];
        }
      }
      LookupInFirstMatch(items[1..], key, i - 1);
    }
  }

  /** No element matches: the default 'unknown'. */
  lemma {:induction false} LookupInNoMatch(items: seq<Json>, key: string)
    requires AllPass(items, key, |items|)
    ensures LookupIn(items, key) == Some(Unknown)
  {
    if items != [] {
      assert Passes(items[0], key);
      assert AllPass(items[1..], key, |items| - 1) by {
        forall j | 0 <= j < |items| - 1 ensures Passes(items[1..][j], key) {
          assert items[1..][j] == items[j + 1];
        }
      }
      LookupInNoMatch(items[1..], key);
    }
  }

  /** An element that cannot be inspected (not a dict, or a name that is not
      a string), reached before any match, raises. */
  lemma {:induction false} LookupInBadElement(items: seq<Json>, key: string, i: nat)
    requires i < |items| && AllPass(items, key, i) && NameOf(items[i]).None?
    ensures LookupIn(items, key).None?
  {
    if i > 0 {
      assert Passes(items[0], key);
      assert AllPass(items[1..], key, i - 1) by {
        forall j | 0 <= j < i - 1 ensures Passes(items[1..][j], key) {
          assert items[1..][j] == items[j + 1];
        }
      }
      LookupInBadElement(items[1..], key, i - 1);
    }
  }

  /** The lookup on whatever `Dimensions` holds. Iterating an empty string
      or dict yields nothing (so 'unknown'); a non-empty one yields strings,
      which have no `.get`; a number, boolean or null cannot be iterated. */
  function Lookup(dims: Json, key: string): (r: Option<Json>)
    ensures dims.JScalar? ==> r.None?
    ensures !dims.JArr? && r.Some? ==> r == Some(Unknown)
    ensures dims == JArr([]) ==> r == Some(Unknown)
    ensures dims.JArr? ==> r == LookupIn(dims.items, key)
    ensures dims.JStr? ==> (r.Some? <==> dims.s == "")
    ensures dims.JObj? ==> (r.Some? <==> dims.members == [])
  {
    match dims
    case JArr(items) => LookupIn(items, key)
    case JStr(s) => if s == "" then Some(Unknown) else None
    case JObj(members) => if members == [] then Some(Unknown) else None
    case JScalar(_) => None
  }

  /** The six values the chat message shows, as text. */
  datatype Alarm = Alarm(name: string, state: string, path: string,
                         instanceId: string, fsType: string, reason: string)

  /** The alarm carries no dimensions at all: no `Trigger`, or a `Trigger`
      dict without `Dimensions`. */
  predicate NoDimensions(msg: Json)
    requires msg.JObj?
  {
    match Find(msg.members, "Trigger")
    case None => true
    case Some(t) => t.JObj? && Find(t.members, "Dimensions").None?
  }

  /** `msg.get('Trigger', {}).get('Dimensions', [])`; `None` where Python
      raises (the message or its `Trigger` is not a dict). */
  function DimensionsOf(msg: Json): (r: Option<Json>)
    ensures msg.JObj? && NoDimensions(msg) ==> r == Some(JArr([]))
    ensures msg.JObj? && Find(msg.members, "Trigger").Some? && Find(msg.members, "Trigger").value.JObj? &&
            Find(Find(msg.members, "Trigger").value.members, "Dimensions").Some? ==>
              r == Find(Find(msg.members, "Trigger").value.members, "Dimensions")
    ensures msg.JObj? && Find(msg.members, "Trigger").Some? && !Find(msg.members, "Trigger").value.JObj? ==> r.None?
    ensures r.Some? ==> msg.JObj?
  {
    if !msg.JObj? then None
    else
      var trigger := GetOr(msg.members, "Trigger", JObj([]));
      if !trigger.JObj? then None
      else Some(GetOr(trigger.members, "Dimensions", JArr([])))
  }

  /** The fields of a decoded alarm notification, with their defaults;
      `None` where Python raises (the message or its `Trigger` is not a
      dict, or a dimension lookup raises). */
  function Extract(msg: Json): (r: Option<Alarm>)
    ensures r.Some? <==> DimensionsOf(msg).Some? && Lookup(DimensionsOf(msg).value, "path").Some? &&
                         Lookup(DimensionsOf(msg).value, "instanceid").Some? &&
                         Lookup(DimensionsOf(msg).value, "fstype").Some?
    ensures r.Some? ==> r.value.path == Show(Lookup(DimensionsOf(msg).value, "path").value) &&
                        r.value.instanceId == Show(Lookup(DimensionsOf(msg).value, "instanceid").value) &&
                        r.value.fsType == Show(Lookup(DimensionsOf(msg).value, "fstype").value)
    ensures msg.JObj? && NoDimensions(msg) ==>
              r.Some? && r.value.path == "unknown" && r.value.instanceId == "unknown" && r.value.fsType == "unknown"
    ensures r.Some? ==> (r.value.name ==
              if Find(msg.members, "AlarmName").None? then "UnknownAlarm" else Show(Find(msg.members, "AlarmName").value))
    ensures r.Some? ==> (r.value.state ==
              if Find(msg.members, "NewStateValue").None? then "UNKNOWN" else Show(Find(msg.members, "NewStateValue").value))
    ensures r.Some? ==> (r.value.reason ==
              if Find(msg.members, "NewStateReason").None? then "No reason provided." else Show(Find(msg.members, "NewStateReason").value))
  {
    match DimensionsOf(msg)
    case None => None
    case Some(dims) =>
      match (Lookup(dims, "path"), Lookup(dims, "instanceid"), Lookup(dims, "fstype"))
      case (Some(path), Some(instanceId), Some(fsType)) =>
        Some(Alarm(Show(GetOr(msg.members, "AlarmName", JStr("UnknownAlarm"))),
                   Show(GetOr(msg.members, "NewStateValue", JStr("UNKNOWN"))),
                   Show(path), Show(instanceId), Show(fsType),
                   Show(GetOr(msg.members, "NewStateReason", JStr("No reason provided.")))))
      case _ => None
  }

  /** `json.loads` once more when the first decode gives a string. */
  function Unwrap(raw: string, decode: string -> Option<Json>): (r: Option<Json>)
    ensures decode(raw).None? ==> r.None?
    ensures decode(raw).Some? && !decode(raw).value.JStr? ==> r == decode(raw)
    ensures decode(raw).Some? && decode(raw).value.JStr? ==> r == decode(decode(raw).value.s)
    ensures r.Some? ==> exists t :: decode(t) == r
  {
    match decode(raw)
    case None => None
    case Some(JStr(inner)) => decode(inner)
    case Some(v) => Some(v)
  }

  /** Encoding a notification once or twice makes no difference, for any
      decoder that reads back `v` and the string holding `v`'s encoding. */
  lemma DoubleEncodingTransparent(decode: string -> Option<Json>, encode: Json -> string, v: Json)
    requires !v.JStr?
    requires decode(encode(v)) == Some(v)
    requires decode(encode(JStr(encode(v)))) == Some(JStr(encode(v)))
    ensures Unwrap(encode(v), decode) == Some(v)
    ensures Unwrap(encode(JStr(encode(v))), decode) == Some(v)
  {
  }

  /** A third layer is not removed: what is left is a string, which has no
      fields, and the record is skipped. */
  lemma TripleEncodingNotUnwrapped(decode: string -> Option<Json>, encode: Json -> string, v: Json)
    requires decode(encode(JStr(encode(v)))) == Some(JStr(encode(v)))
    requires decode(encode(JStr(encode(JStr(encode(v)))))) == Some(JStr(encode(JStr(encode(v)))))
    ensures Unwrap(encode(JStr(encode(JStr(encode(v))))), decode) == Some(JStr(encode(v)))
    ensures Extract(JStr(encode(v))).None?
  {
  }

  /** The record's alarm: `record['Sns']['Message']` decoded and read;
      `None` where the handler skips the record. */
  function RecordAlarm(record: Json, decode: string -> Option<Json>): (r: Option<Alarm>)
    ensures r.Some? ==> Index(record, "Sns").Some? && Index(Index(record, "Sns").value, "Message").Some?
                        && Index(Index(record, "Sns").value, "Message").value.JStr?
    ensures Index(record, "Sns").Some? && Index(Index(record, "Sns").value, "Message").Some? &&
            Index(Index(record, "Sns").value, "Message").value.JStr? ==>
              var raw := Index(Index(record, "Sns").value, "Message").value.s;
              r == (if Unwrap(raw, decode).Some? then Extract(Unwrap(raw, decode).value) else None)
  {
    match Index(record, "Sns")
    case None => None
    case Some(sns) =>
      match Index(sns, "Message")
      case Some(JStr(raw)) =>
        (match Unwrap(raw, decode)
         case Some(msg) => Extract(msg)
         case None => None)
      case _ => None
  }

  /** Any record whose `Sns.Message` holds a notification encoded once or
      twice reads as that notification, whatever else the record and its
      `Sns` carry. */
  lemma {:induction false} DoubleEncodedRecord(decode: string -> Option<Json>, encode: Json -> string,
                                               v: Json, record: Json, sns: Json)
    requires !v.JStr?
    requires decode(encode(v)) == Some(v)
    requires decode(encode(JStr(encode(v)))) == Some(JStr(encode(v)))
    requires Index(record, "Sns") == Some(sns)
    requires Index(sns, "Message") == Some(JStr(encode(v))) ||
             Index(sns, "Message") == Some(JStr(encode(JStr(encode(v)))))
    ensures RecordAlarm(record, decode) == Extract(v)
  {
    DoubleEncodingTransparent(decode, encode, v);
  }

  /** The literal pieces of the message template, around its six values. */
  const Literals: seq<string> := [
    "*Disk Alarm Triggered*\n`",
    "` is now in state: *",
    "*\n\U{1F539} Volume: `",
    "`\n\U{1F539} Instance ID: `",
    "`\n\U{1F539} Filesystem: `",
    "`\n\U{1F539} Reason: ",
    ""
  ]

  /** The six values in the order the message shows them. */
  function Values(a: Alarm): (r: seq<string>)
    ensures |r| + 1 == |Literals|
    ensures r[0] == a.name && r[1] == a.state && r[5] == a.reason
    ensures r[2] == a.path && r[3] == a.instanceId && r[4] == a.fsType
  {
    [a.name, a.state, a.path, a.instanceId, a.fsType, a.reason]
  }

  /** The chat message for an alarm: it opens with the title line and the
      backtick before the alarm's name, and it ends with the reason. */
  function Message(a: Alarm): (r: string)
    ensures |Literals[0]| <= |r| && r[..|Literals[0]|] == "*Disk Alarm Triggered*\n`"
    ensures |a.reason| <= |r| && r[|r| - |a.reason|..] == a.reason
  {
    Template.FillStartsWith(Literals, Values(a));
    Template.FillEndsWith(Literals, Values(a));
    assert a.reason + Literals[6] == a.reason;
    Template.Fill(Literals, Values(a))
  }

  /** Each value appears in the message between its two labels, at an
      offset that grows with k: name, state, path, instance id, filesystem
      type, reason, in that order. */
  lemma MessageShowsValue(a: Alarm, k: nat)
    requires k < 6
    ensures var o := Template.Offset(Literals, Values(a), k);
            |Literals[k]| <= o &&
            o + |Values(a)[k]| + |Literals[k + 1]| <= |Message(a)| &&
            Message(a)[o - |Literals[k]|..o + |Values(a)[k]| + |Literals[k + 1]|]
              == Literals[k] + Values(a)[k] + Literals[k + 1]
    ensures k < 5 ==> Template.Offset(Literals, Values(a), k) + |Values(a)[k]| < Template.Offset(Literals, Values(a), k + 1)
    ensures |Message(a)| == Template.Offset(Literals, Values(a), 5) + |a.reason|
  {
    Template.FillPlacesValue(Literals, Values(a), k);
    Template.FillEndsAfterLast(Literals, Values(a));
  }

  /** `unknown` sits in the message between labels k and k + 1. */
  predicate ShowsUnknownAt(a: Alarm, k: nat)
    requires k < 6
  {
    var o := Template.Offset(Literals, Values(a), k);
    |Literals[k]| <= o && o + |"unknown"| + |Literals[k + 1]| <= |Message(a)| &&
    Message(a)[o - |Literals[k]|..o + |"unknown"| + |Literals[k + 1]|]
      == Literals[k] + "unknown" + Literals[k + 1]
  }

  /** `unknown` sits between the "Volume" and "Instance ID" labels, the
      "Instance ID" and "Filesystem" labels, and the "Filesystem" and
      "Reason" labels. */
  predicate ShowsUnknownDimensions(a: Alarm)
  {
    forall k :: 2 <= k < 5 ==> ShowsUnknownAt(a, k)
  }

  /** An alarm whose path, instance id and filesystem type are `unknown`
      shows `unknown` in each of the three labelled places. */
  lemma {:induction false} UnknownDimensionsShown(a: Alarm)
    requires a.path == "unknown" && a.instanceId == "unknown" && a.fsType == "unknown"
    ensures ShowsUnknownDimensions(a)
  {
    forall k | 2 <= k < 5 ensures ShowsUnknownAt(a, k) {
      MessageShowsValue(a, k);
      assert Values(a)[k] == "unknown";
    }
  }

  /** An alarm without dimensions reads "unknown" for path, instance id and
      filesystem type, and its message shows that in all three places. */
  lemma {:induction false} NoDimensionsShowUnknown(msg: Json)
    requires msg.JObj? && NoDimensions(msg)
    ensures Extract(msg).Some?
    ensures Extract(msg).value.path == "unknown" && Extract(msg).value.instanceId == "unknown" &&
            Extract(msg).value.fsType == "unknown"
    ensures ShowsUnknownDimensions(Extract(msg).value)
  {
    UnknownDimensionsShown(Extract(msg).value);
  }

  /** The request body: `{"text": message}`, one member. */
  function Payload(text: string): (r: Json)
    ensures r.JObj? && |r.members| == 1 && Find(r.members, "text") == Some(JStr(text))
  {
    JObj([("text", JStr(text))])
  }
}
