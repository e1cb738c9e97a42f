/**
 * The derivations behind the dashboard's submissions table
 * (src/components/dashboard/submissions-table.tsx): the search filter, the
 * column headers, the text of each cell and the empty-list branch.
 * `JSON.stringify` and the date formatting are parameters.
 */
module SubmissionsTable {
  import opened Wrappers
  import opened Text
  import opened Seqs

  /** A JSON-like value stored in a submission; numbers are integers here. */
  datatype Value =
    | Null
    | Bool(b: bool)
    | Num(n: int)
    | Str(s: string)
    | Arr(items: seq<Value>)
    | Obj(fields: seq<(string, Value)>)

  /** A stored submission: its id, its field values in key order, and its creation time. */
  datatype Submission = Submission(id: string, data: seq<(string, Value)>, createdAt: string)

  /** `Object.keys(data)`. */
  function Keys(data: seq<(string, Value)>): (keys: seq<string>)
    ensures |keys| == |data|
    ensures forall i :: 0 <= i < |data| ==> keys[i] == data[i].0
  {
    seq(|data|, i requires 0 <= i < |data| => data[i].0)
  }

  /** `data[key]` for the data's own keys: the value stored under `key`, or `undefined`. */
  function Lookup(data: seq<(string, Value)>, key: string): (v: Option<Value>)
    ensures v.None? <==> key !in Keys(data)
    ensures v.Some? ==> (key, v.value) in data
  {
    if data == [] then None
    else if data[0].0 == key then Some(data[0].1)
    else Lookup(data[1..], key)
  }

  // ---------------------------------------------------------------- search

  /** Whether a submission's serialised data contains the term, ignoring ASCII case. */
  predicate Matches(sub: Submission, needle: string, stringify: Value -> string) {
    Contains(ToLower(stringify(Obj(sub.data))), needle)
  }

  /**
   * `filteredSubmissions`: the submissions whose serialised data contains
   * the search term, compared in lower case, in their original order.
   */
  function FilterSubmissions(subs: seq<Submission>, term: string, stringify: Value -> string): (r: seq<Submission>)
    ensures IsSubsequence(r, subs)
    ensures forall s :: s in r <==> s in subs && Matches(s, ToLower(term), stringify)
    ensures forall s :: s in subs ==>
              multiset(r)[s] == if Matches(s, ToLower(term), stringify) then multiset(subs)[s] else 0
  {
    var needle := ToLower(term);
    FilterCount(sub => Matches(sub, needle, stringify), subs);
    Filter(sub => Matches(sub, needle, stringify), subs)
  }

  /** An empty search term keeps every submission. */
  lemma EmptySearchKeepsAll(subs: seq<Submission>, stringify: Value -> string)
    ensures FilterSubmissions(subs, "", stringify) == subs
  {
    forall sub | sub in subs ensures Matches(sub, "", stringify) {
      assert "" <= ToLower(stringify(Obj(sub.data)));
    }
    FilterKeepsAll(sub => Matches(sub, ToLower(""), stringify), subs);
  }

  /** Searching for a term and for its upper-cased form gives the same rows. */
  lemma SearchIgnoresCase(subs: seq<Submission>, term: string, stringify: Value -> string)
    ensures FilterSubmissions(subs, ToUpper(term), stringify) == FilterSubmissions(subs, term, stringify)
  {
    LowerOfUpper(term);
  }

  // --------------------------------------------------------------- headers

  /** Whether `k` is a key of some submission's data. */
  predicate KeyOfSome(subs: seq<Submission>, k: string) {
    exists i :: 0 <= i < |subs| && k in Keys(subs[i].data)
  }

  /** `submissions.flatMap((sub) => Object.keys(sub.data))`. */
  function FlatKeys(subs: seq<Submission>): (keys: seq<string>)
    ensures forall k :: k in keys <==> KeyOfSome(subs, k)
    decreases |subs|
  {
    if subs == [] then []
    else
      var rest := FlatKeys(subs[1..]);
      assert forall k :: KeyOfSome(subs[1..], k) <==> exists i :: 1 <= i < |subs| && k in Keys(subs[i].data) by {
        forall k | KeyOfSome(subs[1..], k)
          ensures exists i :: 1 <= i < |subs| && k in Keys(subs[i].data) {
          var i :| 0 <= i < |subs| - 1 && k in Keys(subs[1..][i].data);
          assert subs[1..][i] == subs[i + 1];
        }
        forall k, i | 1 <= i < |subs| && k in Keys(subs[i].data)
          ensures KeyOfSome(subs[1..], k) {
          assert subs[1..][i - 1] == subs[i];
        }
      }
      Keys(subs[0].data) + rest
  }

  /** Adding `keys` one by one to a JavaScript `Set` that already holds `seen`, in insertion order. */
  function InsertAll(seen: seq<string>, keys: seq<string>): (r: seq<string>)
    ensures NoDuplicates(seen) ==> NoDuplicates(r)
    ensures forall k :: k in r <==> k in seen || k in keys
    ensures seen <= r
    decreases |keys|
  {
    if keys == [] then seen
    else if keys[0] in seen then InsertAll(seen, keys[1..])
    else InsertAll(seen + [keys[0]], keys[1..])
  }

  /** `allKeys`: the distinct keys of all submissions, as `Array.from(new Set(...))`
      lists them; a string is a header exactly when some submission has it as a key. */
  function AllKeys(subs: seq<Submission>): (keys: seq<string>)
    ensures NoDuplicates(keys)
    ensures forall k :: k in keys <==> KeyOfSome(subs, k)
  {
    InsertAll([], FlatKeys(subs))
  }

  /** Reference definition: each element at its first occurrence, in order. */
  function FirstOccurrences(xs: seq<string>): seq<string>
    decreases |xs|
  {
    if xs == [] then []
    else
      var init := xs[..|xs| - 1];
      FirstOccurrences(init) + (if xs[|xs| - 1] in init then [] else [xs[|xs| - 1]])
  }

  lemma {:induction false} FirstOccurrencesMembers(xs: seq<string>)
    ensures forall k :: k in FirstOccurrences(xs) <==> k in xs
    decreases |xs|
  {
    if xs != [] {
      var init := xs[..|xs| - 1];
      FirstOccurrencesMembers(init);
      assert xs == init + [xs[|xs| - 1]];
    }
  }

  lemma {:induction false} InsertAllFirstOccurrences(p: seq<string>, q: seq<string>)
    ensures InsertAll(FirstOccurrences(p), q) == FirstOccurrences(p + q)
    decreases |q|
  {
    if q == [] {
      assert p + q == p;
    } else {
      var p' := p + [q[0]];
      FirstOccurrencesMembers(p);
      assert p'[..|p'| - 1] == p;
      assert FirstOccurrences(p') == FirstOccurrences(p) + (if q[0] in p then [] else [q[0]]);
      InsertAllFirstOccurrences(p', q[1..]);
      assert p' + q[1..] == p + q;
      var fo := FirstOccurrences(p);
      assert q[0] in fo <==> q[0] in p;
      if q[0] in fo {
        assert InsertAll(fo, q) == InsertAll(fo, q[1..]);
        assert FirstOccurrences(p') == fo + [] == fo;
      } else {
        assert InsertAll(fo, q) == InsertAll(fo + [q[0]], q[1..]);
      }
    }
  }

  /** The headers list every key once, at the place where it first appears across the submissions. */
  lemma HeadersInFirstAppearanceOrder(subs: seq<Submission>)
    ensures AllKeys(subs) == FirstOccurrences(FlatKeys(subs))
  {
    InsertAllFirstOccurrences([], FlatKeys(subs));
    assert [] + FlatKeys(subs) == FlatKeys(subs);
  }

  // ----------------------------------------------------------------- cells

  /** JavaScript truthiness of a non-object value. */
  predicate Truthy(v: Value) {
    match v
    case Null => false
    case Bool(b) => b
    case Num(n) => n != 0
    case Str(s) => s != ""
    case Arr(_) => true
    case Obj(_) => true
  }

  /** `typeof v === "object"`, which holds for `null` too. */
  predicate IsObject(v: Value) {
    v.Null? || v.Arr? || v.Obj?
  }

  function Digit(d: int): char
    requires 0 <= d < 10
  {
    "0123456789"[d]
  }

  /** Decimal digits of a natural number. */
  function NatToString(n: nat): (s: string)
    ensures |s| >= 1
    decreases n
  {
    if n < 10 then [Digit(n)] else NatToString(n / 10) + [Digit(n % 10)]
  }

  /** `String(v)` for a primitive. */
  function Show(v: Value): (s: string)
    requires !IsObject(v)
    ensures Truthy(v) ==> s != ""
  {
    match v
    case Bool(b) => if b then "true" else "false"
    case Num(n) => if n < 0 then "-" + NatToString(-n) else NatToString(n)
    case Str(s) => s
  }

  /**
   * The text of one cell: objects (including `null`) are serialised, a
   * missing or falsy primitive shows `"-"`, any other primitive its string
   * form, which is never empty.
   */
  function Cell(v: Option<Value>, stringify: Value -> string): (text: string)
    ensures v.Some? && IsObject(v.value) ==> text == stringify(v.value)
    ensures v.None? || (!IsObject(v.value) && !Truthy(v.value)) ==> text == "-"
    ensures v.Some? && !IsObject(v.value) && Truthy(v.value) ==> text == Show(v.value)
    ensures v.None? || !IsObject(v.value) ==> text != ""
  {
    match v
    case None => "-"
    case Some(x) => if IsObject(x) then stringify(x) else if Truthy(x) then Show(x) else "-"
  }

  // ------------------------------------------------------------------ view

  datatype Row = Row(id: string, date: string, cells: seq<string>)

  /** What the component renders: the placeholder, or a table of headers and rows. */
  datatype View = NoSubmissions | Table(headers: seq<string>, rows: seq<Row>)

  function RowOf(sub: Submission, headers: seq<string>, stringify: Value -> string,
                 formatDate: string -> string): (row: Row)
    ensures row.id == sub.id && row.date == formatDate(sub.createdAt)
    ensures |row.cells| == |headers|
    ensures forall j :: 0 <= j < |headers| ==> row.cells[j] == Cell(Lookup(sub.data, headers[j]), stringify)
  {
    Row(sub.id, formatDate(sub.createdAt),
        seq(|headers|, j requires 0 <= j < |headers| => Cell(Lookup(sub.data, headers[j]), stringify)))
  }

  /**
   * The rendered component. No submissions gives the placeholder and no
   * table; otherwise every submission's key is a column and there is one row
   * per submission matching the search, in order, with one cell per column.
   */
  function Render(subs: seq<Submission>, term: string, stringify: Value -> string,
                  formatDate: string -> string): (v: View)
    ensures v.NoSubmissions? <==> subs == []
    ensures v.Table? ==> v.headers == AllKeys(subs) && NoDuplicates(v.headers)
    ensures v.Table? ==>
      var shown := FilterSubmissions(subs, term, stringify);
      |v.rows| == |shown| &&
      forall i :: 0 <= i < |shown| ==> v.rows[i] == RowOf(shown[i], v.headers, stringify, formatDate)
  {
    if |subs| == 0 then NoSubmissions
    else
      var shown := FilterSubmissions(subs, term, stringify);
      var headers := AllKeys(subs);
      Table(headers, seq(|shown|, i requires 0 <= i < |shown| => RowOf(shown[i], headers, stringify, formatDate)))
  }
}
