/**
 * The document-store layer (api/mongoDB.py): the translation of range
 * parameters such as `min_temp=20` into a store filter (`helper`, `query`)
 * and the batch of replace-with-upsert operations of `upload_MONGO`,
 * together with their effect on a store whose documents are keyed by their
 * `Time` value.
 */
module MongoDB {

  import opened Wrappers
  import opened Frames
  import Numbers

  // ---------------------------------------------------------------------
  // helper: parameter name -> single-field comparison

  /** Python's `sub in s` on strings. */
  predicate Contains(s: string, sub: string)
    decreases |s|
  {
    |sub| <= |s| && (s[..|sub|] == sub || (|s| > 0 && Contains(s[1..], sub)))
  }

  /** `name[4:]`: everything after the four-character prefix, or "" for a shorter name. */
  function Suffix(name: string): string
  {
    if |name| >= 4 then name[4..] else ""
  }

  /** The fixed suffix table; an unrecognised suffix gives "". */
  function FieldName(suffix: string): string
  {
    if suffix == "time" then "Time hh:mm:ss"
    else if suffix == "temp" then "Temperature (c)"
    else if suffix == "sal" then "pH"
    else if suffix == "odo" then "ODO mg/L"
    else ""
  }

  /** `$gte` for a name mentioning "min", else `$lte` for one mentioning "max", else "". */
  function Selector(name: string): string
  {
    if Contains(name, "min") then "$gte"
    else if Contains(name, "max") then "$lte"
    else ""
  }

  /** A comparison operand: a float, or a value passed through unconverted (time bounds). */
  datatype Operand = Number(x: real) | Literal(s: string)

  /** The single-entry mapping `{field: {selector: value}}`. */
  datatype Comparison = Comparison(field: string, selector: string, value: Operand)

  function Helper(name: string, value: Operand): (r: Comparison)
    ensures r.value == value
  {
    Comparison(FieldName(Suffix(name)), Selector(name), value)
  }

  /**
   * The eight range parameters the dashboard can send: `min_` and `max_`
   * with one of the four suffixes become a lower and an upper bound on that
   * suffix's field.
   */
  lemma HelperOnRangeParameters(suffix: string, v: Operand)
    requires suffix in ["time", "temp", "sal", "odo"]
    ensures Helper("min_" + suffix, v) == Comparison(FieldName(suffix), "$gte", v)
    ensures Helper("max_" + suffix, v) == Comparison(FieldName(suffix), "$lte", v)
    ensures FieldName(suffix) in ["Time hh:mm:ss", "Temperature (c)", "pH", "ODO mg/L"]
  {
    HelperOnMin(suffix, v);
    assert 'n' !in suffix;
    HelperOnMax(suffix, v);
  }

  /** A `min_` parameter compares with `$gte` on the field of its suffix. */
  lemma HelperOnMin(suffix: string, v: Operand)
    ensures Helper("min_" + suffix, v) == Comparison(FieldName(suffix), "$gte", v)
  {
    var name := "min_" + suffix;
    assert name[..3] == "min";
    assert Suffix(name) == suffix;
  }

  /** A `max_` parameter whose suffix lacks an "n" compares with `$lte` on the field of its suffix. */
  lemma HelperOnMax(suffix: string, v: Operand)
    requires 'n' !in suffix
    ensures Helper("max_" + suffix, v) == Comparison(FieldName(suffix), "$lte", v)
  {
    var name := "max_" + suffix;
    assert name[..3] == "max";
    assert Suffix(name) == suffix;
    assert 'n' !in name by {
      assert forall i | 4 <= i < |name| :: name[i] == suffix[i - 4];
    }
    AbsentLetter(name, "min", 'n');
  }

  /** A string lacking one of the letters of `sub` does not contain `sub`. */
  lemma {:induction false} AbsentLetter(s: string, sub: string, c: char)
    requires c in sub && c !in s
    ensures !Contains(s, sub)
    decreases |s|
  {
    if |sub| <= |s| {
      if |s| > 0 {
        assert forall x <- s[1..] :: x in s;
        AbsentLetter(s[1..], sub, c);
      }
    }
  }

  /**
   * The fall-backs: "min" wins over "max", a name with neither gets the
   * empty selector, an unrecognised suffix the empty field name; none fails.
   */
  lemma HelperFallbacks(name: string, v: Operand)
    ensures Contains(name, "min") ==> Helper(name, v).selector == "$gte"
    ensures !Contains(name, "min") && Contains(name, "max") ==> Helper(name, v).selector == "$lte"
    ensures !Contains(name, "min") && !Contains(name, "max") ==> Helper(name, v).selector == ""
    ensures Suffix(name) !in ["time", "temp", "sal", "odo"] ==> Helper(name, v).field == ""
  {
  }

  // ---------------------------------------------------------------------
  // query: the parameter mapping -> filter, skip and limit

  /** One `key: value` pair of the request's parameter mapping, in insertion order. */
  type Entry = (string, string)

  predicate DistinctKeys(es: seq<Entry>)
  {
    forall i, j | 0 <= i < j < |es| :: es[i].0 != es[j].0
  }

  function Lookup(es: seq<Entry>, key: string): (r: Option<string>)
    ensures r.Some? <==> exists e <- es :: e.0 == key
    ensures r.Some? ==> (key, r.value) in es
  {
    if es == [] then None
    else if es[0].0 == key then Some(es[0].1)
    else Lookup(es[1..], key)
  }

  /** The mapping without `key`, the other entries in their order (`dict.pop`). */
  function Remove(es: seq<Entry>, key: string): (r: seq<Entry>)
    ensures forall e <- r :: e.0 != key && e in es
    ensures forall e <- es :: e.0 != key <==> e in r
    ensures (forall e <- es :: e.0 != key) ==> r == es
    ensures |r| <= |es|
  {
    if es == [] then []
    else
      var rest := Remove(es[1..], key);
      assert forall e <- es[1..] :: e in es;
      if es[0].0 == key then rest else [es[0]] + rest
  }

  /** With distinct keys, popping the key held at position `k` leaves the other entries in their order. */
  lemma {:induction false} RemoveAt(es: seq<Entry>, key: string, k: nat)
    requires DistinctKeys(es) && k < |es| && es[k].0 == key
    ensures Remove(es, key) == es[..k] + es[k + 1..]
  {
    if k == 0 {
      RemoveHead(es, key);
    } else {
      assert es[0].0 != es[k].0;
      DistinctTail(es);
      RemoveAt(es[1..], key, k - 1);
      assert Remove(es, key) == [es[0]] + Remove(es[1..], key);
      DropAtCons(es, k);
    }
  }

  lemma DropAtCons<T>(s: seq<T>, k: nat)
    requires 0 < k < |s|
    ensures s[..k] + s[k + 1..] == [s[0]] + (s[1..][..k - 1] + s[1..][k..])
  {
    assert s[..k] == [s[0]] + s[1..][..k - 1];
    assert s[k + 1..] == s[1..][k..];
  }

  lemma RemoveHead(es: seq<Entry>, key: string)
    requires DistinctKeys(es) && es != [] && es[0].0 == key
    ensures Remove(es, key) == es[1..]
  {
    forall e <- es[1..] ensures e.0 != key {
      var j :| 0 <= j < |es[1..]| && es[1..][j] == e;
      assert es[j + 1] == e;
    }
  }

  /** Popping a key keeps the remaining keys distinct. */
  lemma {:induction false} RemoveKeepsDistinct(es: seq<Entry>, key: string)
    requires DistinctKeys(es)
    ensures DistinctKeys(Remove(es, key))
  {
    if es != [] {
      var rest := Remove(es[1..], key);
      DistinctTail(es);
      RemoveKeepsDistinct(es[1..], key);
      if es[0].0 != key {
        forall e <- rest ensures e.0 != es[0].0 {
          var j :| 0 <= j < |es[1..]| && es[1..][j] == e;
          assert es[j + 1] == e;
        }
        DistinctCons(es[0], rest);
      }
    }
  }

  lemma DistinctTail(es: seq<Entry>)
    requires es != [] && DistinctKeys(es)
    ensures DistinctKeys(es[1..])
  {
    forall i, j | 0 <= i < j < |es[1..]| ensures es[1..][i].0 != es[1..][j].0 {
      assert es[1..][i] == es[i + 1] && es[1..][j] == es[j + 1];
    }
  }

  lemma DistinctCons(e: Entry, rest: seq<Entry>)
    requires DistinctKeys(rest) && forall x <- rest :: x.0 != e.0
    ensures DistinctKeys([e] + rest)
  {
    var r := [e] + rest;
    forall i, j | 0 <= i < j < |r| ensures r[i].0 != r[j].0 {
      assert r[j] == rest[j - 1] && r[j] in rest;
      if i > 0 {
        assert r[i] == rest[i - 1];
      }
    }
  }

  datatype QueryError = MissingKey(key: string) | NotAFloat(key: string, raw: string)

  /** The value of one remaining parameter: `float(val)` unless the key mentions "time". */
  function Convert(e: Entry): (r: Result<Operand, QueryError>)
    ensures Contains(e.0, "time") ==> r == Ok(Literal(e.1))
    ensures !Contains(e.0, "time") ==>
      (r.Ok? <==> Numbers.ParseFloat(e.1).Some?) &&
      (r.Ok? ==> r.value == Number(Numbers.ParseFloat(e.1).value)) &&
      (r.Err? ==> r.error == NotAFloat(e.0, e.1))
  {
    if Contains(e.0, "time") then Ok(Literal(e.1))
    else match Numbers.ParseFloat(e.1)
      case Some(x) => Ok(Number(x))
      case None => Err(NotAFloat(e.0, e.1))
  }

  /**
   * Applies `f` to each element in order and collects the results, stopping
   * with the error of the first element `f` rejects.
   */
  function Collect<A, B, E>(f: A -> Result<B, E>, xs: seq<A>): Result<seq<B>, E>
  {
    if xs == [] then Ok([])
    else
      var n := |xs| - 1;
      match Collect(f, xs[..n])
      case Err(e) => Err(e)
      case Ok(ys) =>
        match f(xs[n])
        case Err(e) => Err(e)
        case Ok(y) => Ok(ys + [y])
  }

  lemma {:induction false} CollectOk<A, B, E>(f: A -> Result<B, E>, xs: seq<A>)
    ensures Collect(f, xs).Ok? <==> forall i | 0 <= i < |xs| :: f(xs[i]).Ok?
  {
    if xs != [] {
      var n := |xs| - 1;
      CollectOk(f, xs[..n]);
      assert forall i | 0 <= i < n :: xs[..n][i] == xs[i];
    }
  }

  lemma {:induction false} CollectValues<A, B, E>(f: A -> Result<B, E>, xs: seq<A>)
    requires Collect(f, xs).Ok?
    ensures |Collect(f, xs).value| == |xs|
    ensures forall i | 0 <= i < |xs| :: f(xs[i]).Ok? && Collect(f, xs).value[i] == f(xs[i]).value
  {
    if xs != [] {
      var n := |xs| - 1;
      CollectValues(f, xs[..n]);
      assert forall i | 0 <= i < n :: xs[..n][i] == xs[i];
    }
  }

  lemma {:induction false} CollectFirstError<A, B, E>(f: A -> Result<B, E>, xs: seq<A>)
    requires Collect(f, xs).Err?
    ensures exists j | 0 <= j < |xs| :: f(xs[j]) == Err(Collect(f, xs).error) && forall i | 0 <= i < j :: f(xs[i]).Ok?
  {
    var n := |xs| - 1;
    assert forall i | 0 <= i < n :: xs[..n][i] == xs[i];
    if Collect(f, xs[..n]).Err? {
      CollectFirstError(f, xs[..n]);
    } else {
      CollectOk(f, xs[..n]);
    }
  }

  /** Once a prefix fails, the whole collection fails with that error. */
  lemma {:induction false} CollectErrorPersists<A, B, E>(f: A -> Result<B, E>, xs: seq<A>, k: nat)
    requires k <= |xs| && Collect(f, xs[..k]).Err?
    ensures Collect(f, xs) == Collect(f, xs[..k])
  {
    if k < |xs| {
      var n := |xs| - 1;
      assert xs[..n][..k] == xs[..k];
      CollectErrorPersists(f, xs[..n], k);
    } else {
      assert xs[..k] == xs;
    }
  }

  /** The comparison one parameter contributes to the `$and` list, or the error of its value. */
  function ComparisonFor(e: Entry): (r: Result<Comparison, QueryError>)
    ensures r.Ok? <==> Convert(e).Ok?
    ensures r.Ok? ==> r.value == Helper(e.0, Convert(e).value)
    ensures r.Err? ==> r.error == Convert(e).error
  {
    match Convert(e)
    case Ok(v) => Ok(Helper(e.0, v))
    case Err(x) => Err(x)
  }

  /** The comparisons the `$and` loop appends, stopping at the first value `float` rejects. */
  function Comparisons(es: seq<Entry>): Result<seq<Comparison>, QueryError>
  {
    Collect(ComparisonFor, es)
  }

  /** `{}`, `{field: {selector: value}}` or `{"$and": [...]}`. */
  datatype Filter = MatchAll | Single(comparison: Comparison) | And(comparisons: seq<Comparison>)

  /** The filter built from the parameters left after `skip` and `limit` are popped. */
  function FilterFor(es: seq<Entry>): (r: Result<Filter, QueryError>)
    ensures r.Ok? ==> (r.value.MatchAll? <==> |es| == 0) && (r.value.Single? <==> |es| == 1)
  {
    if |es| == 0 then Ok(MatchAll)
    else if |es| == 1 then
      match Convert(es[0])
      case Ok(v) => Ok(Single(Helper(es[0].0, v)))
      case Err(e) => Err(e)
    else
      match Comparisons(es)
      case Ok(cs) => Ok(And(cs))
      case Err(e) => Err(e)
  }

  /** The comparisons are one per entry, in order, and exist exactly when every value converts. */
  lemma ComparisonsExact(es: seq<Entry>)
    ensures Comparisons(es).Ok? <==> forall i | 0 <= i < |es| :: Convert(es[i]).Ok?
    ensures Comparisons(es).Ok? ==>
      |Comparisons(es).value| == |es| &&
      forall i | 0 <= i < |es| :: Comparisons(es).value[i] == Helper(es[i].0, Convert(es[i]).value)
  {
    ComparisonsOk(es);
    if Comparisons(es).Ok? {
      ComparisonsValues(es);
    }
  }

  lemma ComparisonsOk(es: seq<Entry>)
    ensures Comparisons(es).Ok? <==> forall i | 0 <= i < |es| :: Convert(es[i]).Ok?
  {
    CollectOk(ComparisonFor, es);
  }

  lemma ComparisonsValues(es: seq<Entry>)
    requires Comparisons(es).Ok?
    ensures |Comparisons(es).value| == |es|
    ensures forall i | 0 <= i < |es| :: Convert(es[i]).Ok? && Comparisons(es).value[i] == Helper(es[i].0, Convert(es[i]).value)
  {
    CollectValues(ComparisonFor, es);
  }

  /** A failing loop reports the error of the first entry whose value does not convert. */
  lemma ComparisonsFirstError(es: seq<Entry>)
    requires Comparisons(es).Err?
    ensures exists j | 0 <= j < |es| ::
      Convert(es[j]) == Err(Comparisons(es).error) && forall i | 0 <= i < j :: Convert(es[i]).Ok?
  {
    CollectFirstError(ComparisonFor, es);
    var j :| 0 <= j < |es| && ComparisonFor(es[j]) == Err(Comparisons(es).error) &&
      forall i | 0 <= i < j :: ComparisonFor(es[i]).Ok?;
    assert Convert(es[j]) == Err(Comparisons(es).error);
  }

  /** The three filter shapes, by the number of remaining parameters. */
  lemma FilterShape(es: seq<Entry>)
    ensures FilterFor(es).Ok? <==> forall i | 0 <= i < |es| :: Convert(es[i]).Ok?
    ensures |es| == 0 ==> FilterFor(es) == Ok(MatchAll)
    ensures |es| == 1 && FilterFor(es).Ok? ==>
      FilterFor(es).value == Single(Helper(es[0].0, Convert(es[0]).value))
    ensures |es| >= 2 && FilterFor(es).Ok? ==>
      FilterFor(es).value.And? &&
      |FilterFor(es).value.comparisons| == |es| &&
      forall i | 0 <= i < |es| :: FilterFor(es).value.comparisons[i] == Helper(es[i].0, Convert(es[i]).value)
  {
    ComparisonsExact(es);
  }

  /** What both store calls receive: `count_documents` and `find` get the same filter, skip and limit. */
  datatype Request = Request(filter: Filter, skip: string, limit: string)

  /** The request's parameter mapping, which `query` pops in place. */
  class Params {
    var entries: seq<Entry>

    ghost predicate Valid()
      reads this
    {
      DistinctKeys(entries)
    }

    constructor (entries: seq<Entry>)
      requires DistinctKeys(entries)
      ensures Valid() && this.entries == entries
    {
      this.entries := entries;
    }

    /** `dict.pop(key)`: `None` stands for the `KeyError` of a missing key. */
    method Pop(key: string) returns (value: Option<string>)
      requires Valid()
      modifies this
      ensures Valid()
      ensures value == Lookup(old(entries), key)
      ensures entries == Remove(old(entries), key)
    {
      value := Lookup(entries, key);
      RemoveKeepsDistinct(entries, key);
      entries := Remove(entries, key);
    }

    /** `dict.popitem()`: removes and returns the most recently inserted entry. */
    method PopItem() returns (item: Option<Entry>)
      requires Valid()
      modifies this
      ensures Valid()
      ensures old(entries) == [] ==> item == None && entries == []
      ensures old(entries) != [] ==>
        item == Some(old(entries)[|old(entries)| - 1]) && entries == old(entries)[..|old(entries)| - 1]
    {
      if entries == [] {
        item := None;
      } else {
        item := Some(entries[|entries| - 1]);
        entries := entries[..|entries| - 1];
      }
    }
  }

  function SkipLimitRemoved(es: seq<Entry>): seq<Entry>
  {
    Remove(Remove(es, "skip"), "limit")
  }

  method Query(params: Params) returns (r: Result<Request, QueryError>)
    requires params.Valid()
    modifies params
    ensures params.Valid()
    ensures Lookup(old(params.entries), "skip").None? ==>
      r == Err(MissingKey("skip")) && params.entries == old(params.entries)
    ensures Lookup(old(params.entries), "skip").Some? && Lookup(old(params.entries), "limit").None? ==>
      r == Err(MissingKey("limit")) && params.entries == Remove(old(params.entries), "skip")
    ensures Lookup(old(params.entries), "skip").Some? && Lookup(old(params.entries), "limit").Some? ==>
      var rest := SkipLimitRemoved(old(params.entries));
      && params.entries == (if |rest| == 1 then [] else rest)
      && r == match FilterFor(rest)
              case Ok(f) => Ok(Request(f, Lookup(old(params.entries), "skip").value, Lookup(old(params.entries), "limit").value))
              case Err(e) => Err(e)
  {
    ghost var original := params.entries;
    var s := params.Pop("skip");
    if s.None? {
      assert forall e <- original :: e.0 != "skip";
      return Err(MissingKey("skip"));
    }
    LookupRemoveOther(original, "skip", "limit");
    ghost var afterSkip := params.entries;
    var l := params.Pop("limit");
    if l.None? {
      assert forall e <- afterSkip :: e.0 != "limit";
      return Err(MissingKey("limit"));
    }
    var filter := BuildFilter(params);
    match filter
    case Err(e) => r := Err(e);
    case Ok(f) => r := Ok(Request(f, s.value, l.value));
  }

  /** The filter-building part of `query`, on the parameters left after the two pops. */
  method BuildFilter(params: Params) returns (r: Result<Filter, QueryError>)
    requires params.Valid()
    modifies params
    ensures params.Valid()
    ensures r == FilterFor(old(params.entries))
    ensures params.entries == (if |old(params.entries)| == 1 then [] else old(params.entries))
  {
    if |params.entries| == 0 {
      r := Ok(MatchAll);
    } else if |params.entries| == 1 {
      var item := params.PopItem();
      var (key, val) := item.value;
      var v := Convert((key, val));
      if v.Err? {
        return Err(v.error);
      }
      r := Ok(Single(Helper(key, v.value)));
    } else {
      var cs := AndClauses(params.entries);
      match cs
      case Err(e) => r := Err(e);
      case Ok(c) => r := Ok(And(c));
    }
  }

  /** The `$and` loop: one comparison per entry, returning on the first value `float` rejects. */
  method AndClauses(entries: seq<Entry>) returns (r: Result<seq<Comparison>, QueryError>)
    ensures r == Comparisons(entries)
  {
    var temp: seq<Comparison> := [];
    for i := 0 to |entries|
      invariant Comparisons(entries[..i]) == Ok(temp)
    {
      var v := Convert(entries[i]);
      assert entries[..i + 1][..i] == entries[..i];
      if v.Err? {
        CollectErrorPersists(ComparisonFor, entries, i + 1);
        return Err(v.error);
      }
      temp := temp + [Helper(entries[i].0, v.value)];
    }
    assert entries[..|entries|] == entries;
    r := Ok(temp);
  }

  /** The filter is built only from the entries other than `skip` and `limit`, and from all of those. */
  lemma SkipLimitNeverFiltered(es: seq<Entry>)
    ensures forall e <- SkipLimitRemoved(es) :: e in es && e.0 != "skip" && e.0 != "limit"
    ensures forall e <- es | e.0 != "skip" && e.0 != "limit" :: e in SkipLimitRemoved(es)
  {
  }

  lemma {:induction false} LookupRemoveOther(es: seq<Entry>, removed: string, key: string)
    requires removed != key
    ensures Lookup(Remove(es, removed), key) == Lookup(es, key)
  {
    if es != [] {
      LookupRemoveOther(es[1..], removed, key);
    }
  }

  // ---------------------------------------------------------------------
  // upload_MONGO: one replace-with-upsert per document, keyed on Time

  type Document = Row

  /** The collection as far as the upsert is concerned: each stored document under its `Time` value. */
  type Store = map<Cell, Document>

  /** `ReplaceOne(filter={"Time": time}, replacement=doc, upsert=True)`. */
  datatype ReplaceOne = ReplaceOne(time: Cell, replacement: Document)

  /** The `KeyError` of `doc["Time"]` on the first document without a `Time` field. */
  datatype UploadError = MissingTime(index: nat)

  function Operations(docs: seq<Document>): (r: Result<seq<ReplaceOne>, UploadError>)
    ensures r.Ok? ==> |r.value| == |docs|
    ensures r.Err? ==> r.error.index < |docs| && "Time" !in docs[r.error.index]
  {
    if docs == [] then Ok([])
    else
      var n := |docs| - 1;
      match Operations(docs[..n])
      case Err(e) => Err(e)
      case Ok(ops) =>
        if "Time" in docs[n] then Ok(ops + [ReplaceOne(docs[n]["Time"], docs[n])])
        else Err(MissingTime(n))
  }

  /** Exactly one operation per document, in order, filtered on the document's own `Time`. */
  lemma {:induction false} OperationsExact(docs: seq<Document>)
    ensures Operations(docs).Ok? <==> forall d <- docs :: "Time" in d
    ensures Operations(docs).Ok? ==>
      |Operations(docs).value| == |docs| &&
      forall i | 0 <= i < |docs| :: Operations(docs).value[i] == ReplaceOne(docs[i]["Time"], docs[i])
    ensures Operations(docs).Err? ==>
      var j := Operations(docs).error.index;
      j < |docs| && "Time" !in docs[j] && forall i | 0 <= i < j :: "Time" in docs[i]
  {
    if docs != [] {
      var n := |docs| - 1;
      OperationsExact(docs[..n]);
      assert forall i | 0 <= i < n :: docs[..n][i] == docs[i];
      assert forall d <- docs :: d in docs[..n] || d == docs[n];
    }
  }

  /** The store's state and the counts `bulk_write` reports. */
  datatype WriteResult = WriteResult(store: Store, upserted: nat, modified: nat)

  /**
   * An ordered `bulk_write`: each operation replaces the document stored
   * under its time or, when there is none, inserts one.  A replacement with
   * an identical document is not counted as a modification.
   */
  function BulkWrite(store: Store, ops: seq<ReplaceOne>): (r: WriteResult)
    ensures r.upserted + r.modified <= |ops|
    decreases |ops|
  {
    if ops == [] then WriteResult(store, 0, 0)
    else
      var op := ops[0];
      var rest := BulkWrite(store[op.time := op.replacement], ops[1..]);
      WriteResult(
        rest.store,
        rest.upserted + (if op.time in store then 0 else 1),
        rest.modified + (if op.time in store && store[op.time] != op.replacement then 1 else 0))
  }

  function UploadMongo(store: Store, docs: seq<Document>): (r: Result<WriteResult, UploadError>)
    ensures r.Ok? ==> r.value.upserted + r.value.modified <= |docs|
    ensures r.Err? ==> r.error.index < |docs| && "Time" !in docs[r.error.index]
  {
    match Operations(docs)
    case Ok(ops) => Ok(BulkWrite(store, ops))
    case Err(e) => Err(e)
  }

  /** The documents each batch time ends up with: the last operation for that time wins. */
  function LastWins(ops: seq<ReplaceOne>): (m: map<Cell, Document>)
    ensures m.Keys == Times(ops)
  {
    if ops == [] then map[] else map[ops[0].time := ops[0].replacement] + LastWins(ops[1..])
  }

  function Times(ops: seq<ReplaceOne>): set<Cell>
  {
    set op <- ops :: op.time
  }

  lemma {:induction false} BulkWriteIsOverride(store: Store, ops: seq<ReplaceOne>)
    ensures BulkWrite(store, ops).store == store + LastWins(ops)
    decreases |ops|
  {
    if ops != [] {
      var op := ops[0];
      var rest := ops[1..];
      BulkWriteIsOverride(store[op.time := op.replacement], rest);
      assert BulkWrite(store, ops).store == BulkWrite(store[op.time := op.replacement], rest).store;
      assert LastWins(ops) == map[op.time := op.replacement] + LastWins(rest);
      UpdateThenOverride(store, op.time, op.replacement, LastWins(rest));
    }
  }

  lemma UpdateThenOverride(m: Store, k: Cell, v: Document, n: Store)
    ensures m[k := v] + n == m + (map[k := v] + n)
  {
  }

  lemma {:induction false} LastWinsAt(ops: seq<ReplaceOne>, t: Cell)
    requires t in Times(ops)
    ensures exists j | 0 <= j < |ops| ::
      ops[j].time == t && LastWins(ops)[t] == ops[j].replacement &&
      forall k | j < k < |ops| :: ops[k].time != t
  {
    var rest := ops[1..];
    TimesCons(ops);
    assert LastWins(ops) == map[ops[0].time := ops[0].replacement] + LastWins(rest);
    if t in Times(rest) {
      LastWinsAt(rest, t);
      var j :| 0 <= j < |rest| && rest[j].time == t && LastWins(rest)[t] == rest[j].replacement &&
        forall k | j < k < |rest| :: rest[k].time != t;
      ShiftedIndex(ops, j, t);
    } else {
      TimesMembers(rest);
      assert forall k | 0 < k < |ops| :: ops[k] == rest[k - 1];
    }
  }

  /** An index of `ops[1..]` after which `t` does not occur, read as an index of `ops`. */
  lemma ShiftedIndex(ops: seq<ReplaceOne>, j: nat, t: Cell)
    requires 0 < |ops| && j < |ops| - 1
    requires forall k | j < k < |ops[1..]| :: ops[1..][k].time != t
    ensures ops[j + 1] == ops[1..][j]
    ensures forall k | j + 1 < k < |ops| :: ops[k].time != t
  {
    assert forall k | j + 1 < k < |ops| :: ops[k] == ops[1..][k - 1];
  }

  /** Every operation's time is among the times. */
  lemma TimesMembers(ops: seq<ReplaceOne>)
    ensures forall k | 0 <= k < |ops| :: ops[k].time in Times(ops)
  {
    forall k | 0 <= k < |ops| ensures ops[k].time in Times(ops) {
      assert ops[k] in ops;
    }
  }

  /** The `Time` values of a batch. */
  function BatchTimes(docs: seq<Document>): set<Cell>
  {
    set d <- docs | "Time" in d :: d["Time"]
  }

  lemma TimesOfOperations(docs: seq<Document>)
    requires forall d <- docs :: "Time" in d
    ensures Operations(docs).Ok? && Times(Operations(docs).value) == BatchTimes(docs)
  {
    OperationsExact(docs);
    var ops := Operations(docs).value;
    forall t <- Times(ops) ensures t in BatchTimes(docs) {
      var i :| 0 <= i < |ops| && ops[i].time == t;
      assert docs[i] in docs;
    }
    forall t <- BatchTimes(docs) ensures t in Times(ops) {
      var d :| d in docs && d["Time"] == t;
      var i :| 0 <= i < |docs| && docs[i] == d;
      assert ops[i] in ops;
    }
  }

  /** The upload changes the store only at the batch's times, where it adds or replaces documents. */
  lemma UploadFrame(store: Store, docs: seq<Document>)
    requires forall d <- docs :: "Time" in d
    ensures UploadMongo(store, docs).Ok?
    ensures var after := UploadMongo(store, docs).value.store;
      && after.Keys == store.Keys + BatchTimes(docs)
      && forall t <- store | t !in BatchTimes(docs) :: after[t] == store[t]
  {
    TimesOfOperations(docs);
    BulkWriteIsOverride(store, Operations(docs).value);
  }

  /** After the upload, every batch time holds the last batch document with that time. */
  lemma UploadLastWins(store: Store, docs: seq<Document>, t: Cell)
    requires forall d <- docs :: "Time" in d
    requires t in BatchTimes(docs)
    ensures UploadMongo(store, docs).Ok?
    ensures exists j | 0 <= j < |docs| ::
      && docs[j]["Time"] == t
      && t in UploadMongo(store, docs).value.store
      && UploadMongo(store, docs).value.store[t] == docs[j]
      && forall k | j < k < |docs| :: docs[k]["Time"] != t
  {
    TimesOfOperations(docs);
    OperationsExact(docs);
    var ops := Operations(docs).value;
    BulkWriteIsOverride(store, ops);
    LastWinsAt(ops, t);
  }

  /** Uploading the same batch twice leaves the store as uploading it once. */
  lemma UploadIdempotent(store: Store, docs: seq<Document>)
    requires forall d <- docs :: "Time" in d
    ensures UploadMongo(store, docs).Ok?
    ensures var once := UploadMongo(store, docs).value.store;
      UploadMongo(once, docs).Ok? && UploadMongo(once, docs).value.store == once
  {
    OperationsExact(docs);
    var ops := Operations(docs).value;
    BulkWriteIsOverride(store, ops);
    BulkWriteIsOverride(store + LastWins(ops), ops);
    assert (store + LastWins(ops)) + LastWins(ops) == store + LastWins(ops);
  }

  /** The upserted count is the number of batch times the store did not hold. */
  lemma {:induction false} UpsertedCount(store: Store, ops: seq<ReplaceOne>)
    ensures BulkWrite(store, ops).upserted == |Times(ops) - store.Keys|
    decreases |ops|
  {
    if ops != [] {
      var op := ops[0];
      var rest := ops[1..];
      var after := store[op.time := op.replacement];
      var c := if op.time in store then 0 else 1;
      assert BulkWrite(store, ops).upserted == BulkWrite(after, rest).upserted + c;
      assert BulkWrite(after, rest).upserted == |Times(rest) - after.Keys| by {
        UpsertedCount(after, rest);
      }
      NewTimesAfterUpsert(store, ops);
    }
  }

  /** The times left to insert after the first operation: one fewer when it inserted. */
  lemma NewTimesAfterUpsert(store: Store, ops: seq<ReplaceOne>)
    requires ops != []
    ensures var after := store[ops[0].time := ops[0].replacement];
      |Times(ops) - store.Keys| == |Times(ops[1..]) - after.Keys| + (if ops[0].time in store then 0 else 1)
  {
    var op := ops[0];
    var after := store[op.time := op.replacement];
    TimesCons(ops);
    assert after.Keys == store.Keys + {op.time};
    NewTimes(store.Keys, op.time, Times(ops[1..]));
  }

  lemma TimesCons(ops: seq<ReplaceOne>)
    requires ops != []
    ensures Times(ops) == {ops[0].time} + Times(ops[1..])
  {
    assert forall o <- ops :: o == ops[0] || o in ops[1..];
    assert forall o <- ops[1..] :: o in ops;
  }

  lemma NewTimes(keys: set<Cell>, t: Cell, later: set<Cell>)
    ensures ({t} + later) - keys == (later - (keys + {t})) + (if t in keys then {} else {t})
    ensures |({t} + later) - keys| == |later - (keys + {t})| + (if t in keys then 0 else 1)
  {
    var a := later - (keys + {t});
    if t !in keys {
      assert t !in a;
      assert ({t} + later) - keys == a + {t};
    }
  }

  /** A second upload of the same batch inserts nothing new. */
  lemma ReuploadInsertsNothing(store: Store, docs: seq<Document>)
    requires forall d <- docs :: "Time" in d
    ensures UploadMongo(store, docs).Ok?
    ensures var once := UploadMongo(store, docs).value.store;
      UploadMongo(once, docs).Ok? && UploadMongo(once, docs).value.upserted == 0
  {
    OperationsExact(docs);
    var ops := Operations(docs).value;
    BulkWriteIsOverride(store, ops);
    var once := store + LastWins(ops);
    UpsertedCount(once, ops);
    assert Times(ops) - once.Keys == {};
  }

  /** Operations whose documents are already stored change nothing and are counted as neither. */
  lemma {:induction false} BulkWriteOfStored(store: Store, ops: seq<ReplaceOne>)
    requires forall op <- ops :: op.time in store && store[op.time] == op.replacement
    ensures BulkWrite(store, ops) == WriteResult(store, 0, 0)
    decreases |ops|
  {
    if ops != [] {
      assert store[ops[0].time := ops[0].replacement] == store;
      assert forall op <- ops[1..] :: op in ops;
      BulkWriteOfStored(store, ops[1..]);
    }
  }

  /** With distinct times in the batch, a second upload reports nothing upserted and nothing modified. */
  lemma ReuploadChangesNothing(store: Store, docs: seq<Document>)
    requires forall d <- docs :: "Time" in d
    requires forall i, j | 0 <= i < j < |docs| :: docs[i]["Time"] != docs[j]["Time"]
    ensures UploadMongo(store, docs).Ok?
    ensures var once := UploadMongo(store, docs).value.store;
      UploadMongo(once, docs) == Ok(WriteResult(once, 0, 0))
  {
    OperationsExact(docs);
    var ops := Operations(docs).value;
    BulkWriteIsOverride(store, ops);
    var once := store + LastWins(ops);
    forall op <- ops ensures op.time in once && once[op.time] == op.replacement {
      var i :| 0 <= i < |ops| && ops[i] == op;
      assert op.time in Times(ops);
      LastWinsAt(ops, op.time);
    }
    BulkWriteOfStored(once, ops);
  }

  /** Every stored document sits under its own `Time` value. */
  predicate Keyed(store: Store)
  {
    forall t <- store :: "Time" in store[t] && store[t]["Time"] == t
  }

  /** An upload keeps the store keyed by `Time`, so a time is never stored twice. */
  lemma {:induction false} UploadKeepsKeyed(store: Store, docs: seq<Document>)
    requires Keyed(store) && UploadMongo(store, docs).Ok?
    ensures Keyed(UploadMongo(store, docs).value.store)
  {
    OperationsExact(docs);
    var ops := Operations(docs).value;
    BulkWriteKeepsKeyed(store, ops);
  }

  lemma {:induction false} BulkWriteKeepsKeyed(store: Store, ops: seq<ReplaceOne>)
    requires Keyed(store)
    requires forall op <- ops :: "Time" in op.replacement && op.replacement["Time"] == op.time
    ensures Keyed(BulkWrite(store, ops).store)
    decreases |ops|
  {
    if ops != [] {
      assert forall op <- ops[1..] :: op in ops;
      BulkWriteKeepsKeyed(store[ops[0].time := ops[0].replacement], ops[1..]);
    }
  }
}
