/**
  The Python values a decoded JSON response consists of, and the in-place date
  rewriting that both clients apply to the entries of a response list
  (`for entry in resp: entry[key] = self._to_datetime(entry[key])`).
*/
module Values {

  import opened Wrappers
  import DateParsing

  /** A value decoded from a JSON body, plus the `datetime` objects the client
      stores back into response entries. */
  datatype Value =
    | Null
    | Bool(b: bool)
    | Int(i: int)
    | Num(r: real)
    | Str(s: string)
    | List(items: seq<Value>)
    | Dict(entries: map<string, Value>)
    | Date(dt: DateParsing.DateTime)

  /** Python truthiness, as used by `if not resp` and `x or []`. */
  predicate Truthy(v: Value) {
    match v
    case Null => false
    case Bool(b) => b
    case Int(i) => i != 0
    case Num(r) => r != 0.0
    case Str(s) => s != []
    case List(items) => items != []
    case Dict(entries) => |entries| != 0
    case Date(_) => true
  }

  /** The entry after `entry[key] = _to_datetime(entry[key])`, or None when that
      statement raises (the entry is not a dict, lacks the key, or its value is not
      a date string in either layout). */
  function NormalizedEntry(entry: Value, key: string): (r: Option<Value>)
    ensures r.Some? ==> entry.Dict? && r.value.Dict? && r.value.entries.Keys == entry.entries.Keys
    ensures r.Some? ==> forall k :: k in entry.entries && k != key ==> r.value.entries[k] == entry.entries[k]
    ensures r.Some? ==> key in entry.entries && entry.entries[key].Str? && r.value.entries[key].Date?
    ensures r.Some? ==> DateParsing.ToDatetime(entry.entries[key].s) == Ok(r.value.entries[key].dt)
    ensures r.Some? ==> r.value.entries[key].dt.utc
    ensures r.None? <==> !(entry.Dict? && key in entry.entries && entry.entries[key].Str? &&
                           DateParsing.ToDatetime(entry.entries[key].s).Ok?)
  {
    if entry.Dict? && key in entry.entries && entry.entries[key].Str? then
      match DateParsing.ToDatetime(entry.entries[key].s)
      case Ok(dt) => Some(Dict(entry.entries[key := Date(dt)]))
      case Err(_) => None
    else None
  }

  /** The loop over a response list: rewrites the date field of each entry in place
      and stops at the first entry where that raises, whose index it returns. */
  method NormalizeDates(entries: array<Value>, key: string) returns (failedAt: Option<nat>)
    modifies entries
    ensures failedAt.None? <==> forall i :: 0 <= i < entries.Length ==> NormalizedEntry(old(entries[i]), key).Some?
    ensures failedAt.None? ==> forall i :: 0 <= i < entries.Length ==> Some(entries[i]) == NormalizedEntry(old(entries[i]), key)
    ensures failedAt.Some? ==> failedAt.value < entries.Length && NormalizedEntry(old(entries[failedAt.value]), key).None?
    ensures failedAt.Some? ==> forall i :: 0 <= i < failedAt.value ==> Some(entries[i]) == NormalizedEntry(old(entries[i]), key)
    ensures failedAt.Some? ==> forall i :: failedAt.value <= i < entries.Length ==> entries[i] == old(entries[i])
  {
    var i := 0;
    while i < entries.Length
      invariant 0 <= i <= entries.Length
      invariant forall j :: 0 <= j < i ==> Some(entries[j]) == NormalizedEntry(old(entries[j]), key)
      invariant forall j :: i <= j < entries.Length ==> entries[j] == old(entries[j])
    {
      var converted := NormalizedEntry(entries[i], key);
      if converted.None? {
        return Some(i);
      }
      entries[i] := converted.value;
      i := i + 1;
    }
    return None;
  }

  /** A rewritten entry cannot be rewritten again: its field now holds a `datetime`,
      not a string. */
  lemma NormalizeOnce(entry: Value, key: string)
    requires NormalizedEntry(entry, key).Some?
    ensures NormalizedEntry(NormalizedEntry(entry, key).value, key).None?
  {
  }
}
