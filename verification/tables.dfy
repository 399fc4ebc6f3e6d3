/** Database tables with auto-increment keys, as in-memory maps. */
module Tables {
  import opened Wrappers

  /** The rows of one table by primary key, and the next key the table will hand out. */
  datatype Table<T> = Table(rows: map<nat, T>, next: nat) {

    /** Keys start at 1 and every stored key is below `next`. */
    predicate Valid() {
      next >= 1 && forall id :: id in rows ==> 1 <= id < next
    }

    /** An INSERT: the new row gets a key no row had before. */
    function Insert(row: T): (r: (Table<T>, nat))
      requires Valid()
      ensures r.0.Valid()
      ensures r.1 !in rows && r.1 in r.0.rows && r.0.rows[r.1] == row
      ensures forall id :: id in rows ==> id < r.1
      ensures r.0.rows.Keys == rows.Keys + {r.1}
      ensures forall id :: id in rows ==> r.0.rows[id] == rows[id]
    {
      (Table(rows[next := row], next + 1), next)
    }

    /** An UPDATE of an existing row. */
    function Put(id: nat, row: T): (t: Table<T>)
      requires id in rows
      ensures t.rows.Keys == rows.Keys && t.next == next
      ensures t.rows[id] == row
      ensures forall j :: j in rows && j != id ==> t.rows[j] == rows[j]
    {
      Table(rows[id := row], next)
    }
  }

  function EmptyTable<T>(): (t: Table<T>)
    ensures t.Valid() && t.rows == map[]
  {
    Table(map[], 1)
  }

  /** The lowest key in [lo, hi) whose row satisfies `p`: a `first()` over a
      key-ordered scan. */
  function FirstWhere<T>(rows: map<nat, T>, p: T -> bool, lo: nat, hi: nat): (r: Option<nat>)
    ensures r.Some? ==> lo <= r.value < hi && r.value in rows && p(rows[r.value])
    ensures r.Some? ==> forall j :: lo <= j < r.value && j in rows ==> !p(rows[j])
    ensures r.None? ==> forall j :: lo <= j < hi && j in rows ==> !p(rows[j])
    decreases hi - lo
  {
    if lo >= hi then None
    else if lo in rows && p(rows[lo]) then Some(lo)
    else FirstWhere(rows, p, lo + 1, hi)
  }

  /** The first row of a valid table satisfying `p`. */
  function First<T>(t: Table<T>, p: T -> bool): (r: Option<nat>)
    requires t.Valid()
    ensures r.Some? ==> r.value in t.rows && p(t.rows[r.value])
    ensures r.Some? ==> forall j :: j in t.rows && j < r.value ==> !p(t.rows[j])
    ensures r.None? <==> forall j :: j in t.rows ==> !p(t.rows[j])
  {
    FirstWhere(t.rows, p, 1, t.next)
  }

  /** The keys in [lo, hi) whose rows satisfy `p`, ascending. */
  function KeysWhere<T>(rows: map<nat, T>, p: T -> bool, lo: nat, hi: nat): (ks: seq<nat>)
    ensures forall i :: 0 <= i < |ks| ==> lo <= ks[i] < hi && ks[i] in rows && p(rows[ks[i]])
    ensures forall i, j :: 0 <= i < j < |ks| ==> ks[i] < ks[j]
    ensures forall k :: lo <= k < hi && k in rows && p(rows[k]) ==> k in ks
    decreases hi - lo
  {
    if lo >= hi then []
    else if lo in rows && p(rows[lo]) then [lo] + KeysWhere(rows, p, lo + 1, hi)
    else KeysWhere(rows, p, lo + 1, hi)
  }

  /** The rows named by a list of keys, in that order. */
  function RowsAt<T>(rows: map<nat, T>, ks: seq<nat>): (r: seq<T>)
    requires forall i :: 0 <= i < |ks| ==> ks[i] in rows
    ensures |r| == |ks|
    ensures forall i :: 0 <= i < |ks| ==> r[i] == rows[ks[i]]
  {
    seq(|ks|, i requires 0 <= i < |ks| => rows[ks[i]])
  }

  /** The reverse of a sequence (a `latest()` ordering over ascending keys). */
  function Reverse<T>(xs: seq<T>): (r: seq<T>)
    ensures |r| == |xs|
    ensures forall i :: 0 <= i < |xs| ==> r[i] == xs[|xs| - 1 - i]
  {
    seq(|xs|, i requires 0 <= i < |xs| => xs[|xs| - 1 - i])
  }
}
