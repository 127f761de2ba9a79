/** A time-history record: the data collected for one variable, the key it is
    looked up by, and a label. */
module Records {

  /** `labelText` holds the record's `label` attribute. */
  datatype Record<T> = Record(data: seq<T>, key: string, labelText: string)

  /** A new record holds no data and has an empty key and label. */
  function NewRecord<T>(): (r: Record<T>)
    ensures r.data == [] && r.key == "" && r.labelText == ""
  {
    Record([], "", "")
  }

  /** The length of a record is the number of entries it holds. */
  function Length<T>(r: Record<T>): (n: nat)
    ensures n == |r.data|
    ensures n == 0 <==> r.data == []
  {
    |r.data|
  }

  /** Whether `k` is the record's key; an empty key is falsy, so it never
      matches, and the truth value stands for the falsy or `True` result. */
  function IsKey<T>(r: Record<T>, k: string): (b: bool)
    ensures b ==> k == r.key
    ensures k == r.key ==> (b <==> r.key != "")
  {
    k != "" && k == r.key
  }

  /** At most one key matches a record, and it is the stored one. */
  lemma IsKeyUnique<T>(r: Record<T>, a: string, b: string)
    requires IsKey(r, a) && IsKey(r, b)
    ensures a == b == r.key && r.key != ""
  {
  }

  /** The stored key matches itself exactly when it is non-empty. */
  lemma StoredKeyMatches<T>(r: Record<T>)
    ensures IsKey(r, r.key) <==> r.key != ""
  {
  }

  /** A fresh record, whose key is empty, matches no key at all. */
  lemma FreshRecordMatchesNothing<T>(k: string)
    ensures !IsKey(NewRecord<T>(), k)
  {
  }

  /** The label together with the data, in order and in full. */
  function GetData<T>(r: Record<T>): (out: (string, seq<T>))
    ensures out.0 == r.labelText
    ensures |out.1| == Length(r) && forall i :: 0 <= i < |out.1| ==> out.1[i] == r.data[i]
  {
    (r.labelText, r.data)
  }

  /** The entries the string form lists: the first three, or all when there
      are at most three. */
  function Shown<T>(d: seq<T>): (s: seq<T>)
    ensures |s| == if |d| > 3 then 3 else |d|
    ensures s == d[..|s|]
  {
    if |d| > 3 then d[..3] else d
  }

  /** The string form `label:key:entries`, where `show` renders a list of
      entries as Python's str does. */
  function Str<T>(r: Record<T>, show: seq<T> -> string): (s: string)
    ensures |r.data| > 3 ==> s == r.labelText + ":" + r.key + ":" + show(r.data[..3])
    ensures |r.data| <= 3 ==> s == r.labelText + ":" + r.key + ":" + show(r.data)
  {
    r.labelText + ":" + r.key + ":" + show(Shown(r.data))
  }

  /** Only the first three entries reach the string form: two records that
      agree on label, key and those entries print the same. */
  lemma StrSeesFirstThree<T>(r: Record<T>, r': Record<T>, show: seq<T> -> string)
    requires r.labelText == r'.labelText && r.key == r'.key
    requires |r.data| > 3 && |r'.data| > 3 && r.data[..3] == r'.data[..3]
    ensures Str(r, show) == Str(r', show)
  {
  }
}
