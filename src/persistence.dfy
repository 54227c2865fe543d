/**
 * The key conversion around the saved JSON file: `save_dict` writes
 * `{str(k): v}` and `load_dict` reads `{int(k): int(v) or None}` back. The file
 * itself is not modelled; a JSON object is the ordered list of its members as
 * `json.load` hands them over.
 */
module Persistence {
  import opened Wrappers
  import opened Text
  import opened Seats
  import opened Store

  /** A JSON object of integer-or-null members, in file order. */
  type JsonObject = seq<(string, Option<int>)>

  /** The members written for the seats of `order`, in that order. */
  function Members(m: Table, order: seq<int>): (obj: JsonObject)
    requires forall i :: 0 <= i < |order| ==> order[i] in m
    ensures |obj| == |order|
  {
    seq(|order|, i requires 0 <= i < |order| => (IntToString(order[i]), m[order[i]]))
  }

  /** `{str(k): v for k, v in numbers_dict.items()}`; the members are listed in
      ascending seat order. */
  function Save(m: Table): (obj: JsonObject)
    ensures |obj| == |m|
  {
    Members(m, SortedKeys(m.Keys))
  }

  /** `{int(k): v for k, v in data.items()}`: `None` when some member name is not
      an integer, where Python raises and `load_dict` gives up; a later member
      wins over an earlier one with the same number. */
  function Load(obj: JsonObject): (r: Option<Table>)
  {
    if obj == [] then Some(map[])
    else
      var last := obj[|obj| - 1];
      match (Load(obj[..|obj| - 1]), ParseInt(last.0))
      case (Some(m), Some(k)) => Some(m[k := last.1])
      case _ => None
  }

  /** Loading the members written for `order` gives exactly those seats, with their scores. */
  lemma {:induction false} LoadMembers(m: Table, order: seq<int>)
    requires forall i :: 0 <= i < |order| ==> order[i] in m
    ensures Load(Members(m, order)).Some?
    ensures forall k :: k in Load(Members(m, order)).value <==> k in order
    ensures forall k :: k in Load(Members(m, order)).value ==> Load(Members(m, order)).value[k] == m[k]
  {
    if order != [] {
      var n := |order| - 1;
      var obj := Members(m, order);
      var prefix := order[..n];
      assert order == prefix + [order[n]];
      assert obj[..n] == Members(m, prefix);
      LoadMembers(m, prefix);
      var before := Load(Members(m, prefix)).value;
      IntToStringRoundTrip(order[n]);
      var after := before[order[n] := m[order[n]]];
      assert Load(obj) == Some(after);
      assert forall k :: k in order <==> k in prefix || k == order[n];
    }
  }

  /** What `save_dict` writes, `load_dict` reads back unchanged. */
  lemma LoadSave(m: Table)
    ensures Load(Save(m)) == Some(m)
  {
    var order := SortedKeys(m.Keys);
    LoadMembers(m, order);
    SameTable(Load(Members(m, order)).value, m, order);
  }
}
