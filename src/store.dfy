/**
 * The score table both front ends keep: a dictionary from seat number to an
 * optional score, its validated update, the copy list and the filled count.
 */
module Store {
  import opened Wrappers
  import opened Text
  import opened CodeParser
  import opened Seats

  /** Seat number to score; `None` is a seat without a score yet. */
  type Table = map<int, Option<int>>

  /** What submitting one code does: the two rejections and the accepted store. */
  datatype Outcome =
    | BadFormat                        // not 4-5 digits after stripping
    | UnknownSeat(seat: nat)           // a seat number that may not be set
    | Stored(seat: nat, score: nat)    // the seat now holds the score

  /** Every seat of `keys` present, none of them scored. */
  function Unset(keys: set<int>): (m: Table)
    ensures m.Keys == keys
    ensures forall k :: k in m ==> m[k] == None
  {
    map k | k in keys :: None
  }

  /** Judge a stripped code against the seats that may be set: format first, then the seat. */
  function Decide(t: string, seats: set<int>): (o: Outcome)
    ensures o.BadFormat? <==> !WellFormed(t)
    ensures o.UnknownSeat? ==> Parse(t).Some? && o.seat == Parse(t).value.seat && o.seat !in seats
    ensures o.Stored? ==> Parse(t) == Some(Code(o.seat, o.score)) && o.seat in seats
  {
    match Parse(t)
    case None => BadFormat
    case Some(c) => if c.seat in seats then Stored(c.seat, c.score) else UnknownSeat(c.seat)
  }

  /** The table after an outcome: `numbers_dict[key] = value` for a store, untouched otherwise. */
  function Apply(m: Table, o: Outcome): Table
  {
    if o.Stored? then m[o.seat := Some(o.score)] else m
  }

  /** A rejected code leaves the table as it was. */
  lemma RejectedLeavesTable(m: Table, t: string, seats: set<int>)
    requires !Decide(t, seats).Stored?
    ensures Apply(m, Decide(t, seats)) == m
  {
  }

  /** An accepted code sets exactly its seat, keeps every other seat's score and
      adds or removes no seat, when the seats that may be set are the table's own. */
  lemma StoredSetsOneSeat(m: Table, t: string)
    requires Decide(t, m.Keys).Stored?
    ensures var o := Decide(t, m.Keys);
      && Apply(m, o).Keys == m.Keys
      && Apply(m, o)[o.seat] == Some(o.score)
      && forall k :: k in m && k != o.seat ==> Apply(m, o)[k] == m[k]
  {
  }

  /** The last of two stores to one seat wins. */
  lemma LastWriteWins(m: Table, seat: nat, first: nat, second: nat)
    ensures Apply(Apply(m, Stored(seat, first)), Stored(seat, second)) == Apply(m, Stored(seat, second))
  {
  }

  // ---------------------------------------------------------------------
  // The copy list
  // ---------------------------------------------------------------------

  /** One entry of the copy list: `""` for a missing score, `str(v)` otherwise. */
  function ValueText(v: Option<int>): (s: string)
    ensures s == "" <==> v == None
    ensures '\n' !in s && '\r' !in s
  {
    if v == None then "" else IntToString(v.value)
  }

  /** Reading an entry of the copy list back. */
  function ReadValue(s: string): Option<int>
  {
    if s == "" then None else ParseInt(s)
  }

  lemma ReadValueText(v: Option<int>)
    ensures ReadValue(ValueText(v)) == v
  {
    if v.Some? {
      IntToStringRoundTrip(v.value);
    }
  }

  /** The copy list: one entry per seat of `order`, in that order. */
  function ExportValues(m: Table, order: seq<int>): (vals: seq<string>)
    requires forall i :: 0 <= i < |order| ==> order[i] in m
    ensures |vals| == |order|
    ensures forall i :: 0 <= i < |order| ==> ReadValue(vals[i]) == m[order[i]]
    ensures forall i :: 0 <= i < |order| ==> (vals[i] == "" <==> m[order[i]] == None)
    ensures forall i :: 0 <= i < |order| ==> '\n' !in vals[i] && '\r' !in vals[i]
  {
    var vals := seq(|order|, i requires 0 <= i < |order| => ValueText(m[order[i]]));
    assert forall i :: 0 <= i < |order| ==> ReadValue(vals[i]) == m[order[i]] by {
      forall i | 0 <= i < |order| ensures ReadValue(vals[i]) == m[order[i]] {
        ReadValueText(m[order[i]]);
      }
    }
    vals
  }

  /** The copy list of a whole table: its values in ascending seat order. */
  function CopyList(m: Table): (vals: seq<string>)
    ensures |vals| == |m|
  {
    ExportValues(m, SortedKeys(m.Keys))
  }

  /** `all(v == "" for v in values)`: the copy action has nothing to copy. */
  predicate AllEmpty(vals: seq<string>)
  {
    forall i :: 0 <= i < |vals| ==> vals[i] == ""
  }

  /** The text the copy action hands over: the entries joined by newlines. */
  function CopyText(vals: seq<string>): string
  {
    Join(vals, '\n')
  }

  /** The copied text splits back, line by line, into the copy list. */
  lemma CopyTextLines(m: Table, order: seq<int>)
    requires forall i :: 0 <= i < |order| ==> order[i] in m
    requires |order| > 0
    ensures Split(CopyText(ExportValues(m, order)), '\n') == ExportValues(m, order)
  {
    SplitJoin(ExportValues(m, order), '\n');
  }

  // ---------------------------------------------------------------------
  // The filled count
  // ---------------------------------------------------------------------

  /** The seats that hold a score. */
  function Filled(m: Table): set<int>
  {
    set k | k in m && m[k].Some?
  }

  /** `sum(1 for v in numbers_dict.values() if v is not None)`. */
  function FilledCount(m: Table): nat
  {
    |Filled(m)|
  }

  lemma {:induction false} SubsetCard(a: set<int>, b: set<int>)
    requires a <= b
    ensures |a| <= |b|
    decreases b
  {
    if forall x :: x in b ==> x in a {
      assert a == b;
    } else {
      var x :| x in b && x !in a;
      SubsetCard(a, b - {x});
    }
  }

  /** Filled and unfilled seats add up to the size of the table. */
  lemma FilledCountBounds(m: Table)
    ensures FilledCount(m) <= |m|
    ensures FilledCount(m) + |set k | k in m && m[k] == None| == |m|
  {
    var empty := set k | k in m && m[k] == None;
    assert Filled(m) + empty == m.Keys;
    assert Filled(m) * empty == {};
    SubsetCard(Filled(m), m.Keys);
  }

  /** Storing a score raises the filled count by one exactly when the seat had none. */
  lemma FilledCountAfterStore(m: Table, seat: nat, score: nat)
    requires seat in m
    ensures FilledCount(Apply(m, Stored(seat, score))) == FilledCount(m) + (if m[seat] == None then 1 else 0)
  {
    var m' := Apply(m, Stored(seat, score));
    if m[seat] == None {
      assert Filled(m') == Filled(m) + {seat};
      assert seat !in Filled(m);
    } else {
      assert Filled(m') == Filled(m);
    }
  }

  /** The copy action is disabled exactly when no seat has a score. */
  lemma AllEmptyIffNothingFilled(m: Table, order: seq<int>)
    requires forall i :: 0 <= i < |order| ==> order[i] in m
    requires forall k :: k in m ==> k in order
    ensures AllEmpty(ExportValues(m, order)) <==> FilledCount(m) == 0
  {
    var vals := ExportValues(m, order);
    if AllEmpty(vals) {
      forall k | k in m ensures m[k] == None {
        var i :| 0 <= i < |order| && order[i] == k;
        assert vals[i] == "";
      }
      assert Filled(m) == {};
    } else {
      var i :| 0 <= i < |vals| && vals[i] != "";
      assert m[order[i]] != None;
      assert order[i] in Filled(m);
    }
  }

  /** Two tables over the same seats that agree on every seat are equal. */
  lemma SameTable(r: Table, m: Table, order: seq<int>)
    requires forall k :: k in r <==> k in order
    requires forall k :: k in m <==> k in order
    requires forall k :: k in r ==> r[k] == m[k]
    ensures r == m
  {
    assert forall k :: k in r <==> k in m;
    assert forall k :: k in r ==> r[k] == m[k];
    assert r == m;
  }
}
