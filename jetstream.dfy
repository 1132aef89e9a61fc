/** The Jetstream adapter (src/util/jetstream.ts): it builds the query of
    the subscription URL from the stored cursor and the wanted collection,
    keeps only the JSON messages of kind "commit", turns each post create
    into a one-post batch for the handler, and stores the event's
    `time_us` as the cursor after every 100 commits. */
module Jetstream {
  import opened Wrappers
  import opened Timer
  import opened Store
  import opened Stream
  import Decimal
  import Firehose
  import Handler
  import Seqs

  // ---------------------------------------------------------------------
  // Query parameters: encodeQueryParam and encodeQueryParams
  // ---------------------------------------------------------------------

  /** A JavaScript value handed to `encodeQueryParam`. Numbers are
      integers; a Date holds its time value, `None` standing for NaN (an
      invalid date). */
  datatype QueryValue =
    | QString(s: string)
    | QNumber(n: int)
    | QBoolean(b: bool)
    | QUndefined
    | QNull
    | QDate(time: Option<int>)
    | QArray(items: seq<QueryValue>)
    | QObject
    | QFunction
    | QSymbol
    | QBigInt

  /** The two shapes `encodeQueryParam` returns: a string or an array of strings. */
  datatype Encoded = One(s: string) | Many(ss: seq<string>)

  /** A name-value pair of a `URLSearchParams` list. */
  type Pair = (string, string)

  /** `typeof value`. */
  function TypeOf(v: QueryValue): string
  {
    match v
    case QString(_) => "string"
    case QNumber(_) => "number"
    case QBoolean(_) => "boolean"
    case QUndefined => "undefined"
    case QFunction => "function"
    case QSymbol => "symbol"
    case QBigInt => "bigint"
    case _ => "object"
  }

  function CannotEncode(v: QueryValue): string
  {
    "Cannot encode " + TypeOf(v) + "s into query params"
  }

  function Strings(e: Encoded): seq<string>
  {
    match e
    case One(s) => [s]
    case Many(ss) => ss
  }

  /** `encodeQueryParam`: strings as they are, integers in decimal,
      booleans as "true"/"false", undefined and null as "", a date by the
      `iso` formatter, an array as the flattened encodings of its items;
      anything else is an error. An error thrown inside an array aborts the
      whole array. */
  function EncodeParam(v: QueryValue, iso: int -> string): Result<Encoded>
    decreases v, 0
  {
    match v
    case QString(s) => Ok(One(s))
    case QNumber(n) => Ok(One(Decimal.IntToString(n)))
    case QBoolean(b) => Ok(One(if b then "true" else "false"))
    case QUndefined => Ok(One(""))
    case QDate(t) => if ValidTime(t) then Ok(One(iso(t.value))) else Err(InvalidTimeValue)
    case QArray(items) =>
      (match EncodeItems(items, iso)
       case Ok(ss) => Ok(Many(ss))
       case Err(e) => Err(e))
    case QNull => Ok(One(""))
    case _ => Err(CannotEncode(v))
  }

  /** `flatMap(encodeQueryParam)` over the items of an array. */
  function EncodeItems(items: seq<QueryValue>, iso: int -> string): Result<seq<string>>
    decreases items, 1
  {
    if items == [] then Ok([])
    else
      match EncodeParam(items[0], iso)
      case Err(e) => Err(e)
      case Ok(h) =>
        match EncodeItems(items[1..], iso)
        case Err(e) => Err(e)
        case Ok(t) => Ok(Strings(h) + t)
  }

  /** The values `encodeQueryParam` accepts, stated independently of it. */
  predicate Encodable(v: QueryValue)
    decreases v
  {
    match v
    case QDate(t) => ValidTime(t)
    case QArray(items) => forall i :: 0 <= i < |items| ==> Encodable(items[i])
    case QObject => false
    case QFunction => false
    case QSymbol => false
    case QBigInt => false
    case _ => true
  }

  /** The non-array values reached by descending into arrays, in order. */
  function Leaves(v: QueryValue): (r: seq<QueryValue>)
    ensures forall i :: 0 <= i < |r| ==> !r[i].QArray?
    decreases v, 0
  {
    if v.QArray? then LeavesOf(v.items) else [v]
  }

  function LeavesOf(items: seq<QueryValue>): (r: seq<QueryValue>)
    ensures forall i :: 0 <= i < |r| ==> !r[i].QArray?
    decreases items, 1
  {
    if items == [] then [] else Leaves(items[0]) + LeavesOf(items[1..])
  }

  /** Exactly the encodable values encode without error; a non-array
      value encodes to one string, an array to a list. */
  lemma {:induction false} EncodeOk(v: QueryValue, iso: int -> string)
    ensures EncodeParam(v, iso).Ok? <==> Encodable(v)
    ensures EncodeParam(v, iso).Ok? ==> (EncodeParam(v, iso).value.Many? <==> v.QArray?)
    decreases v, 0
  {
    if v.QArray? {
      EncodeItemsOk(v.items, iso);
    }
  }

  lemma {:induction false} EncodeItemsOk(items: seq<QueryValue>, iso: int -> string)
    ensures EncodeItems(items, iso).Ok? <==> forall i :: 0 <= i < |items| ==> Encodable(items[i])
    decreases items, 1
  {
    if items != [] {
      EncodeOk(items[0], iso);
      EncodeItemsOk(items[1..], iso);
      assert forall i :: 1 <= i < |items| ==> items[i] == items[1..][i - 1];
    }
  }

  /** Flattening: an array encodes to the encodings of its leaves, one
      string per leaf and in order, however deeply the arrays nest. */
  lemma {:induction false} EncodeFlattens(v: QueryValue, iso: int -> string)
    requires Encodable(v)
    ensures EncodeParam(v, iso).Ok?
    ensures |Strings(EncodeParam(v, iso).value)| == |Leaves(v)|
    ensures forall i :: 0 <= i < |Leaves(v)| ==>
              EncodeParam(Leaves(v)[i], iso) == Ok(One(Strings(EncodeParam(v, iso).value)[i]))
    decreases v, 0
  {
    EncodeOk(v, iso);
    if v.QArray? {
      EncodeItemsFlattens(v.items, iso);
    }
  }

  lemma {:induction false} EncodeItemsFlattens(items: seq<QueryValue>, iso: int -> string)
    requires forall i :: 0 <= i < |items| ==> Encodable(items[i])
    ensures EncodeItems(items, iso).Ok?
    ensures |EncodeItems(items, iso).value| == |LeavesOf(items)|
    ensures forall i :: 0 <= i < |LeavesOf(items)| ==>
              EncodeParam(LeavesOf(items)[i], iso) == Ok(One(EncodeItems(items, iso).value[i]))
    decreases items, 1
  {
    EncodeItemsOk(items, iso);
    if items != [] {
      assert forall i :: 1 <= i < |items| ==> items[i] == items[1..][i - 1];
      EncodeFlattens(items[0], iso);
      EncodeItemsFlattens(items[1..], iso);
      var h := Strings(EncodeParam(items[0], iso).value);
      var t := EncodeItems(items[1..], iso).value;
      assert EncodeItems(items, iso).value == h + t;
      assert LeavesOf(items) == Leaves(items[0]) + LeavesOf(items[1..]);
    }
  }

  /** The position of the first value of `ls` that cannot be encoded, or
      `|ls|` when there is none. */
  function FirstBad(ls: seq<QueryValue>): (k: nat)
    ensures k <= |ls|
    ensures forall m :: 0 <= m < k ==> Encodable(ls[m])
    ensures k < |ls| ==> !Encodable(ls[k])
  {
    if ls == [] || !Encodable(ls[0]) then 0 else 1 + FirstBad(ls[1..])
  }

  lemma {:induction false} FirstBadConcat(a: seq<QueryValue>, b: seq<QueryValue>)
    ensures FirstBad(a + b) == if FirstBad(a) < |a| then FirstBad(a) else |a| + FirstBad(b)
  {
    if a != [] {
      Seqs.ConsSplit(a, b);
      if Encodable(a[0]) {
        FirstBadConcat(a[1..], b);
      }
    } else {
      Seqs.EmptyAppend(b);
    }
  }

  /** The first leaf that cannot be encoded decides the error. */
  lemma {:induction false} EncodeFirstError(v: QueryValue, iso: int -> string)
    requires !Encodable(v)
    ensures FirstBad(Leaves(v)) < |Leaves(v)|
    ensures EncodeParam(v, iso) == EncodeParam(Leaves(v)[FirstBad(Leaves(v))], iso)
    decreases v, 3
  {
    if v.QArray? {
      EncodeItemsFirstError(v.items, iso);
      assert EncodeParam(v, iso) == Err(EncodeItems(v.items, iso).error);
      assert Leaves(v) == LeavesOf(v.items);
    } else {
      assert Leaves(v) == [v];
    }
  }

  lemma {:induction false} EncodeItemsFirstError(items: seq<QueryValue>, iso: int -> string)
    requires !forall i :: 0 <= i < |items| ==> Encodable(items[i])
    ensures FirstBad(LeavesOf(items)) < |LeavesOf(items)|
    ensures EncodeParam(LeavesOf(items)[FirstBad(LeavesOf(items))], iso).Err?
    ensures EncodeItems(items, iso) == Err(EncodeParam(LeavesOf(items)[FirstBad(LeavesOf(items))], iso).error)
    decreases items, 2
  {
    if Encodable(items[0]) {
      FirstErrorInTail(items, iso);
    } else {
      FirstErrorInHead(items, iso);
    }
  }

  /** The first item cannot be encoded: its own first bad leaf decides. */
  lemma {:induction false} FirstErrorInHead(items: seq<QueryValue>, iso: int -> string)
    requires items != [] && !Encodable(items[0])
    ensures FirstBad(LeavesOf(items)) < |LeavesOf(items)|
    ensures EncodeParam(LeavesOf(items)[FirstBad(LeavesOf(items))], iso).Err?
    ensures EncodeItems(items, iso) == Err(EncodeParam(LeavesOf(items)[FirstBad(LeavesOf(items))], iso).error)
    decreases items, 1
  {
    var first := Leaves(items[0]);
    var ls := LeavesOf(items);
    assert ls == first + LeavesOf(items[1..]);
    FirstBadConcat(first, LeavesOf(items[1..]));
    EncodeOk(items[0], iso);
    EncodeFirstError(items[0], iso);
    assert ls[FirstBad(first)] == first[FirstBad(first)];
  }

  /** The first item encodes: the first bad leaf lies in the rest. */
  lemma {:induction false} FirstErrorInTail(items: seq<QueryValue>, iso: int -> string)
    requires items != [] && Encodable(items[0])
    requires !forall i :: 0 <= i < |items| ==> Encodable(items[i])
    ensures FirstBad(LeavesOf(items)) < |LeavesOf(items)|
    ensures EncodeParam(LeavesOf(items)[FirstBad(LeavesOf(items))], iso).Err?
    ensures EncodeItems(items, iso) == Err(EncodeParam(LeavesOf(items)[FirstBad(LeavesOf(items))], iso).error)
    decreases items, 1
  {
    var first := Leaves(items[0]);
    var rest := LeavesOf(items[1..]);
    assert LeavesOf(items) == first + rest;
    BadInTail(items);
    EncodeItemsFirstError(items[1..], iso);
    EncodeOk(items[0], iso);
    LeavesEncodable(items[0]);
    FirstBadAfter(first, rest);
  }

  lemma BadInTail(items: seq<QueryValue>)
    requires items != [] && Encodable(items[0])
    requires !forall i :: 0 <= i < |items| ==> Encodable(items[i])
    ensures !forall i :: 0 <= i < |items[1..]| ==> Encodable(items[1..][i])
  {
    var i :| 0 <= i < |items| && !Encodable(items[i]);
    assert items[1..][i - 1] == items[i];
  }

  /** After a run of encodable values, the first bad one is found in the rest. */
  lemma FirstBadAfter(first: seq<QueryValue>, rest: seq<QueryValue>)
    requires forall i :: 0 <= i < |first| ==> Encodable(first[i])
    requires FirstBad(rest) < |rest|
    ensures FirstBad(first + rest) == |first| + FirstBad(rest)
    ensures (first + rest)[FirstBad(first + rest)] == rest[FirstBad(rest)]
  {
    FirstBadConcat(first, rest);
    Seqs.SnocSplit(first, rest, FirstBad(rest));
  }

  /** Every leaf of an encodable value is encodable. */
  lemma {:induction false} LeavesEncodable(v: QueryValue)
    requires Encodable(v)
    ensures forall i :: 0 <= i < |Leaves(v)| ==> Encodable(Leaves(v)[i])
    decreases v, 0
  {
    if v.QArray? {
      LeavesOfEncodable(v.items);
    }
  }

  lemma {:induction false} LeavesOfEncodable(items: seq<QueryValue>)
    requires forall i :: 0 <= i < |items| ==> Encodable(items[i])
    ensures forall i :: 0 <= i < |LeavesOf(items)| ==> Encodable(LeavesOf(items)[i])
    decreases items, 1
  {
    if items != [] {
      assert forall i :: 1 <= i < |items| ==> items[i] == items[1..][i - 1];
      LeavesEncodable(items[0]);
      LeavesOfEncodable(items[1..]);
    }
  }

  /** Whether some pair of `ps` has name `k`. */
  predicate HasKey(ps: seq<Pair>, k: string)
  {
    exists i :: 0 <= i < |ps| && ps[i].0 == k
  }

  /** The pairs of `ps` whose name is not `k`, in order. */
  function Without(ps: seq<Pair>, k: string): (r: seq<Pair>)
    ensures !HasKey(r, k)
    ensures |r| <= |ps|
  {
    if ps == [] then []
    else (if ps[0].0 == k then [] else [ps[0]]) + Without(ps[1..], k)
  }

  /** `getAll(k)`: the values of the pairs named `k`, in order. */
  function ValuesOf(ps: seq<Pair>, k: string): seq<string>
  {
    if ps == [] then []
    else (if ps[0].0 == k then [ps[0].1] else []) + ValuesOf(ps[1..], k)
  }

  lemma HasKeyTail(ps: seq<Pair>, k: string)
    requires HasKey(ps, k) && ps[0].0 != k
    ensures HasKey(ps[1..], k)
  {
    var i :| 0 <= i < |ps| && ps[i].0 == k;
    assert ps[1..][i - 1] == ps[i];
  }

  /** The first pair named `k` takes value `v`; the later ones go. */
  function SetFirst(ps: seq<Pair>, k: string, v: string): seq<Pair>
    requires HasKey(ps, k)
  {
    if ps[0].0 == k then [(k, v)] + Without(ps[1..], k)
    else
      HasKeyTail(ps, k);
      [ps[0]] + SetFirst(ps[1..], k, v)
  }

  /** `URLSearchParams.set(k, v)`: replaces the first pair named `k` and
      removes the others, or appends when there is none. */
  function SetParam(ps: seq<Pair>, k: string, v: string): seq<Pair>
  {
    if HasKey(ps, k) then SetFirst(ps, k, v) else ps + [(k, v)]
  }

  /** `append(k, v)` for each of `vs`, in order. */
  function Appended(k: string, vs: seq<string>): (r: seq<Pair>)
    ensures |r| == |vs|
    ensures forall i :: 0 <= i < |vs| ==> r[i] == (k, vs[i])
  {
    seq(|vs|, i requires 0 <= i < |vs| => (k, vs[i]))
  }

  lemma {:induction false} ValuesOfAppend(a: seq<Pair>, b: seq<Pair>, k: string)
    ensures ValuesOf(a + b, k) == ValuesOf(a, k) + ValuesOf(b, k)
    ensures Without(a + b, k) == Without(a, k) + Without(b, k)
  {
    if a != [] {
      Seqs.ConsSplit(a, b);
      ValuesOfAppend(a[1..], b, k);
      Seqs.AppendAssoc(if a[0].0 == k then [a[0].1] else [], ValuesOf(a[1..], k), ValuesOf(b, k));
      Seqs.AppendAssoc(if a[0].0 == k then [] else [a[0]], Without(a[1..], k), Without(b, k));
    } else {
      Seqs.EmptyAppend(b);
    }
  }

  lemma {:induction false} WithoutValues(ps: seq<Pair>, k: string)
    ensures ValuesOf(Without(ps, k), k) == []
    ensures Without(Without(ps, k), k) == Without(ps, k)
  {
    if ps != [] {
      WithoutValues(ps[1..], k);
      ValuesOfAppend(if ps[0].0 == k then [] else [ps[0]], Without(ps[1..], k), k);
    }
  }

  /** After `set(k, v)` the list holds exactly one pair named `k`, with
      value `v`, and the pairs with other names are those before, in the
      same order. */
  lemma {:induction false} SetParamSpec(ps: seq<Pair>, k: string, v: string)
    ensures ValuesOf(SetParam(ps, k, v), k) == [v]
    ensures Without(SetParam(ps, k, v), k) == Without(ps, k)
  {
    if HasKey(ps, k) {
      SetFirstSpec(ps, k, v);
    } else {
      ValuesOfAppend(ps, [(k, v)], k);
      NoKeyValues(ps, k);
    }
  }

  lemma {:induction false} NoKeyValues(ps: seq<Pair>, k: string)
    requires !HasKey(ps, k)
    ensures ValuesOf(ps, k) == [] && Without(ps, k) == ps
  {
    if ps != [] {
      assert !HasKey(ps[1..], k) by {
        forall i | 0 <= i < |ps[1..]| ensures ps[1..][i].0 != k {
          assert ps[1..][i] == ps[i + 1];
        }
      }
      NoKeyValues(ps[1..], k);
    }
  }

  lemma {:induction false} SetFirstSpec(ps: seq<Pair>, k: string, v: string)
    requires HasKey(ps, k)
    ensures ValuesOf(SetFirst(ps, k, v), k) == [v]
    ensures Without(SetFirst(ps, k, v), k) == Without(ps, k)
  {
    var r := SetFirst(ps, k, v);
    if ps[0].0 == k {
      WithoutValues(ps[1..], k);
      ValuesOfAppend([(k, v)], Without(ps[1..], k), k);
    } else {
      HasKeyTail(ps, k);
      SetFirstSpec(ps[1..], k, v);
      ValuesOfAppend([ps[0]], SetFirst(ps[1..], k, v), k);
    }
  }

  /** How `encodeQueryParams` adds one encoded entry: `set` for a string,
      `append` of each element for an array. */
  function AddParam(ps: seq<Pair>, k: string, e: Encoded): seq<Pair>
  {
    match e
    case One(s) => SetParam(ps, k, s)
    case Many(ss) => ps + Appended(k, ss)
  }

  /** The pairs `encodeQueryParams` builds from the entries of the object,
      in entry order, or the error of the first entry that cannot be
      encoded. */
  function QueryParams(entries: seq<(string, QueryValue)>, iso: int -> string): Result<seq<Pair>>
    decreases |entries|
  {
    if entries == [] then Ok([])
    else
      var n := |entries| - 1;
      match QueryParams(entries[..n], iso)
      case Err(e) => Err(e)
      case Ok(ps) =>
        match EncodeParam(entries[n].1, iso)
        case Err(e) => Err(e)
        case Ok(enc) => Ok(AddParam(ps, entries[n].0, enc))
  }

  /** An error stays an error when more entries follow. */
  lemma {:induction false} QueryParamsErr(entries: seq<(string, QueryValue)>, j: nat, iso: int -> string)
    requires j <= |entries| && QueryParams(entries[..j], iso).Err?
    ensures QueryParams(entries, iso) == QueryParams(entries[..j], iso)
    decreases |entries|
  {
    if j < |entries| {
      var n := |entries| - 1;
      assert entries[..n][..j] == entries[..j];
      QueryParamsErr(entries[..n], j, iso);
    } else {
      assert entries[..j] == entries;
    }
  }

  /** `encodeQueryParams`, before serialization: the object's entries in
      order, each encoded and then `set` or `append`ed. */
  method EncodeQueryParams(obj: seq<(string, QueryValue)>, iso: int -> string) returns (r: Result<seq<Pair>>)
    ensures r == QueryParams(obj, iso)
  {
    var params: seq<Pair> := [];
    var j := 0;
    while j < |obj|
      invariant 0 <= j <= |obj|
      invariant QueryParams(obj[..j], iso) == Ok(params)
    {
      var (key, value) := obj[j];
      assert obj[..j + 1][..j] == obj[..j] && obj[..j + 1][j] == obj[j];
      var encoded := EncodeParam(value, iso);
      if encoded.Err? {
        QueryParamsErr(obj, j + 1, iso);
        return Err(encoded.error);
      }
      match encoded.value {
        case Many(ss) =>
          var k := 0;
          ghost var before := params;
          while k < |ss|
            invariant 0 <= k <= |ss|
            invariant params == before + Appended(key, ss[..k])
          {
            params := params + [(key, ss[k])];
            k := k + 1;
            assert Appended(key, ss[..k]) == Appended(key, ss[..k - 1]) + [(key, ss[k - 1])];
          }
          assert ss[..k] == ss;
        case One(s) =>
          params := SetParam(params, key, s);
      }
      j := j + 1;
    }
    assert obj[..j] == obj;
    return Ok(params);
  }

  /** The names of the entries. */
  function Keys(entries: seq<(string, QueryValue)>): set<string>
  {
    set i | 0 <= i < |entries| :: entries[i].0
  }

  /** The pairs of the entries, one per string of each encoding, when
      nothing is set twice. */
  function Expanded(entries: seq<(string, QueryValue)>, iso: int -> string): seq<Pair>
    decreases |entries|
  {
    if entries == [] then []
    else
      var n := |entries| - 1;
      Expanded(entries[..n], iso)
      + match EncodeParam(entries[n].1, iso)
        case Ok(enc) => Appended(entries[n].0, Strings(enc))
        case Err(_) => []
  }

  lemma {:induction false} ExpandedNames(entries: seq<(string, QueryValue)>, iso: int -> string)
    ensures forall i :: 0 <= i < |Expanded(entries, iso)| ==> Expanded(entries, iso)[i].0 in Keys(entries)
    decreases |entries|
  {
    if entries != [] {
      var n := |entries| - 1;
      ExpandedNames(entries[..n], iso);
      assert Keys(entries[..n]) <= Keys(entries) by {
        forall i | 0 <= i < n ensures entries[..n][i].0 in Keys(entries) {
          assert entries[..n][i] == entries[i];
        }
      }
      assert entries[n].0 in Keys(entries);
    }
  }

  /** Object keys are distinct, so `set` never meets an earlier pair of its
      name: the query holds the name of each entry once per string of its
      encoding, in entry order; it fails exactly when some entry cannot be
      encoded. */
  lemma {:induction false} QueryParamsDistinct(entries: seq<(string, QueryValue)>, iso: int -> string)
    requires forall i, j :: 0 <= i < j < |entries| ==> entries[i].0 != entries[j].0
    ensures QueryParams(entries, iso).Ok? <==> forall i :: 0 <= i < |entries| ==> Encodable(entries[i].1)
    ensures QueryParams(entries, iso).Ok? ==> QueryParams(entries, iso).value == Expanded(entries, iso)
    decreases |entries|
  {
    if entries != [] {
      var n := |entries| - 1;
      var prefix := entries[..n];
      assert forall i :: 0 <= i < n ==> prefix[i] == entries[i];
      QueryParamsDistinct(prefix, iso);
      EncodeOk(entries[n].1, iso);
      var r := QueryParams(prefix, iso);
      if r.Ok? && EncodeParam(entries[n].1, iso).Ok? {
        var enc := EncodeParam(entries[n].1, iso).value;
        if enc.One? {
          ExpandedNames(prefix, iso);
          assert entries[n].0 !in Keys(prefix);
          assert !HasKey(r.value, entries[n].0);
        }
      }
    }
  }

  /** `getParams`: the stored cursor, undefined when there is no row, and
      the wanted collection. */
  function GetParams(cursor: Option<int>, collection: string): seq<(string, QueryValue)>
  {
    [("cursor", if cursor.Some? then QNumber(cursor.value) else QUndefined),
     ("wantedCollections", QString(collection))]
  }

  /** The query always names the cursor, empty when there is none, then
      the collection. */
  lemma GetParamsQuery(cursor: Option<int>, collection: string, iso: int -> string)
    ensures QueryParams(GetParams(cursor, collection), iso)
         == Ok([("cursor", if cursor.Some? then Decimal.IntToString(cursor.value) else ""),
                ("wantedCollections", collection)])
  {
    var entries := GetParams(cursor, collection);
    assert entries[..1] == [entries[0]];
    assert entries[..1][..0] == [];
    var c := if cursor.Some? then Decimal.IntToString(cursor.value) else "";
    assert EncodeParam(entries[0].1, iso) == Ok(One(c));
    assert EncodeParam(entries[1].1, iso) == Ok(One(collection));
    assert !HasKey([], "cursor");
    assert QueryParams(entries[..1][..0], iso) == Ok([]);
    assert entries[..1][0] == entries[0];
    assert SetParam([], "cursor", c) == [("cursor", c)];
    assert QueryParams(entries[..1], iso) == Ok([("cursor", c)]);
    assert entries[..|entries| - 1] == entries[..1];
    assert "cursor"[0] != "wantedCollections"[0];
    assert !HasKey([("cursor", c)], "wantedCollections");
    assert SetParam([("cursor", c)], "wantedCollections", collection)
        == [("cursor", c), ("wantedCollections", collection)];
  }

  // ---------------------------------------------------------------------
  // Events and the run loop
  // ---------------------------------------------------------------------

  /** The post record of a commit: its text and its `createdAt`. */
  datatype JetstreamRecord = JetstreamRecord(text: string, createdAt: Millis)

  datatype JetstreamCommit = JetstreamCommit(
    rev: string, operation: string, collection: string, rkey: string,
    record: Option<JetstreamRecord>, cid: string)

  /** A parsed message object: the properties the adapter reads, each of
      `kind` and `commit` possibly absent. */
  datatype JetstreamEvent = JetstreamEvent(did: string, timeUs: int, kind: Option<string>, commit: Option<JetstreamCommit>)

  /** A parsed JSON value: an object, or anything else (a number, a
      string, an array, null). */
  datatype Json = JsonObject(evt: JetstreamEvent) | JsonOther

  /** What the websocket yields: a chunk that parses as JSON, one that does
      not (it is logged and skipped), or a failure that ends the iteration. */
  datatype Chunk = Parsed(value: Json) | Unparseable | TransportError

  /** `isJetstreamCommit`: an object whose `kind` is "commit". */
  predicate IsJetstreamCommit(v: Json)
  {
    v.JsonObject? && v.evt.kind == Some("commit")
  }

  /** The batch of one commit event: a single post create when the commit
      creates a record in the post collection, nothing otherwise. */
  function JetstreamBatch(evt: JetstreamEvent): FeedOperationsByType
  {
    if evt.commit.Some? && evt.commit.value.collection == Firehose.PostNsid
       && evt.commit.value.operation == "create" && evt.commit.value.record.Some?
    then
      var c := evt.commit.value;
      WithCreate(Post, FeedCreateEvent(Handler.PostUri(evt.did, c.rkey), c.cid, c.record.value.createdAt, c.record.value.text))
    else EmptyBatch()
  }

  /** A Jetstream batch holds at most one operation, a post create, and it
      holds one exactly for a create of a post record; the create carries
      the record's text and timestamp, the commit's cid and the post URI. */
  lemma JetstreamBatchSpec(evt: JetstreamEvent)
    ensures Size(JetstreamBatch(evt)) <= 1
    ensures forall k :: k != Post ==> Bucket(JetstreamBatch(evt), k) == NoOps
    ensures JetstreamBatch(evt).posts.deletes == []
    ensures JetstreamBatch(evt).posts.creates != []
        <==> evt.commit.Some? && evt.commit.value.collection == "app.bsky.feed.post"
             && evt.commit.value.operation == "create" && evt.commit.value.record.Some?
    ensures JetstreamBatch(evt).posts.creates != [] ==>
              var c := evt.commit.value;
              JetstreamBatch(evt).posts.creates
              == [FeedCreateEvent("at://" + evt.did + "/app.bsky.feed.post/" + c.rkey, c.cid,
                                  c.record.value.createdAt, c.record.value.text)]
  {
  }

  /** `getJetstreamOpsByType`: start from the empty batch and push the
      post create, if there is one. */
  method GetJetstreamOpsByType(evt: JetstreamEvent) returns (ops: FeedOperationsByType)
    ensures ops == JetstreamBatch(evt)
  {
    ops := EmptyBatch();
    if evt.commit.Some? && evt.commit.value.collection == Firehose.PostNsid
       && evt.commit.value.operation == "create" && evt.commit.value.record.Some? {
      var c := evt.commit.value;
      ConcatEmpty(ops);
      ops := PushCreate(ops, Post, FeedCreateEvent(Handler.PostUri(evt.did, c.rkey), c.cid,
                                                   c.record.value.createdAt, c.record.value.text));
      assert Concat(EmptyBatch(), WithCreate(Post, FeedCreateEvent(Handler.PostUri(evt.did, c.rkey), c.cid,
                                                   c.record.value.createdAt, c.record.value.text)))
          == WithCreate(Post, FeedCreateEvent(Handler.PostUri(evt.did, c.rkey), c.cid,
                                                   c.record.value.createdAt, c.record.value.text));
    }
  }

  predicate IsCommit(c: Chunk)
  {
    c.Parsed? && IsJetstreamCommit(c.value)
  }

  /** The commit events among `chunks`, in stream order. */
  function Commits(chunks: seq<Chunk>): seq<JetstreamEvent>
    decreases |chunks|
  {
    if chunks == [] then []
    else
      var n := |chunks| - 1;
      Commits(chunks[..n]) + (if IsCommit(chunks[n]) then [chunks[n].value.evt] else [])
  }

  /** The batches of a sequence of commits. */
  function Batches(evts: seq<JetstreamEvent>): (r: seq<FeedOperationsByType>)
    ensures |r| == |evts|
    ensures forall m :: 0 <= m < |evts| ==> r[m] == JetstreamBatch(evts[m])
  {
    seq(|evts|, m requires 0 <= m < |evts| => JetstreamBatch(evts[m]))
  }

  lemma BatchesSnoc(evts: seq<JetstreamEvent>, e: JetstreamEvent)
    ensures Batches(evts + [e]) == Batches(evts) + [JetstreamBatch(e)]
  {
  }

  /** The `sub_state` table after the cursor writes of `chunks`: after the
      commit that brings the count of commits to a multiple of 100, its
      `time_us` is written. */
  function Checkpoints(state: SubState, service: string, chunks: seq<Chunk>): SubState
    decreases |chunks|
  {
    if chunks == [] then state
    else
      var n := |chunks| - 1;
      var s := Checkpoints(state, service, chunks[..n]);
      if IsCommit(chunks[n]) && |Commits(chunks)| % 100 == 0
      then SetCursor(s, service, chunks[n].value.evt.timeUs)
      else s
  }

  lemma CommitsStep(chunks: seq<Chunk>, j: nat)
    requires j < |chunks|
    ensures Commits(chunks[..j + 1])
         == Commits(chunks[..j]) + (if IsCommit(chunks[j]) then [chunks[j].value.evt] else [])
  {
    assert chunks[..j + 1][..j] == chunks[..j] && chunks[..j + 1][j] == chunks[j];
  }

  /** One more chunk adds its batch, if it is a commit. */
  lemma BatchesStep(chunks: seq<Chunk>, j: nat)
    requires j < |chunks|
    ensures Batches(Commits(chunks[..j + 1]))
         == Batches(Commits(chunks[..j]))
            + (if IsCommit(chunks[j]) then [JetstreamBatch(chunks[j].value.evt)] else [])
  {
    CommitsStep(chunks, j);
    if IsCommit(chunks[j]) {
      BatchesSnoc(Commits(chunks[..j]), chunks[j].value.evt);
    } else {
      assert Commits(chunks[..j + 1]) == Commits(chunks[..j]);
    }
  }

  /** The commit count modulo 100 after one more chunk. */
  lemma CountStep(chunks: seq<Chunk>, j: nat, i: nat)
    requires j < |chunks| && i == |Commits(chunks[..j])| % 100
    ensures (i + if IsCommit(chunks[j]) then 1 else 0) % 100 == |Commits(chunks[..j + 1])| % 100
  {
    CommitsStep(chunks, j);
  }

  lemma CheckpointsStep(state: SubState, service: string, chunks: seq<Chunk>, j: nat)
    requires j < |chunks|
    ensures Checkpoints(state, service, chunks[..j + 1])
         == if IsCommit(chunks[j]) && |Commits(chunks[..j + 1])| % 100 == 0
            then SetCursor(Checkpoints(state, service, chunks[..j]), service, chunks[j].value.evt.timeUs)
            else Checkpoints(state, service, chunks[..j])
  {
    assert chunks[..j + 1][..j] == chunks[..j] && chunks[..j + 1][j] == chunks[j];
  }

  /** `n / 100 * 100` grows with `n` only at multiples of 100. */
  lemma HundredsStep(n: nat)
    ensures (n + 1) % 100 == 0 ==> (n + 1) / 100 * 100 == n + 1
    ensures (n + 1) % 100 != 0 ==> (n + 1) / 100 == n / 100
  {
  }

  /** The last commit whose count is a multiple of 100 stays the same
      when `cs` grows by one commit that is not a 100th, or by nothing. */
  lemma LastHundredStep(before: seq<JetstreamEvent>, cs: seq<JetstreamEvent>, grew: bool)
    requires grew ==> |cs| > 0
    requires cs == before + (if grew then [cs[|cs| - 1]] else [])
    ensures grew && |cs| % 100 == 0 ==> |cs| >= 100 && |cs| / 100 * 100 - 1 == |cs| - 1
    ensures !(grew && |cs| % 100 == 0) && |cs| >= 100 ==>
      |before| >= 100 && cs[|cs| / 100 * 100 - 1] == before[|before| / 100 * 100 - 1]
  {
    HundredsStep(|before|);
  }

  /** The stored cursor is the `time_us` of the last commit whose count is
      a multiple of 100 (the 100th, 200th, ... commit), or the old one when
      there were fewer than 100 commits; a service without a row stays
      without one. No other row changes. */
  lemma {:induction false} CheckpointsStored(state: SubState, service: string, chunks: seq<Chunk>)
    ensures Checkpoints(state, service, chunks).Keys == state.Keys
    ensures forall s :: s in state && s != service ==> Checkpoints(state, service, chunks)[s] == state[s]
    ensures var cs := Commits(chunks);
            StoredCursor(Checkpoints(state, service, chunks), service)
            == if service !in state then None
               else if |cs| >= 100 then Some(cs[|cs| / 100 * 100 - 1].timeUs)
               else Some(state[service])
    decreases |chunks|
  {
    if chunks != [] {
      var n := |chunks| - 1;
      CheckpointsStored(state, service, chunks[..n]);
      var before := Commits(chunks[..n]);
      var cs := Commits(chunks);
      assert chunks[..n + 1] == chunks;
      CommitsStep(chunks, n);
      LastHundredStep(before, cs, IsCommit(chunks[n]));
    }
  }

  /** `JetstreamFirehoseSubscription`: the Jetstream adapter for one
      service and one wanted collection. */
  class JetstreamFirehoseSubscription {
    const db: Database
    const service: string
    const collection: string
    const timerHandler: Handler.FeedHandler
    /** The batches handed to `timerHandler.handleEvent`, in order. */
    var dispatched: seq<FeedOperationsByType>

    /** Construction initializes the handler with the database, once. */
    constructor (db: Database, service: string, collection: string, timerHandler: Handler.FeedHandler)
      modifies timerHandler
      ensures this.db == db && this.service == service && this.collection == collection
      ensures this.timerHandler == timerHandler
      ensures dispatched == []
      ensures timerHandler.db == db && timerHandler.initializations == old(timerHandler.initializations) + 1
      ensures timerHandler.lastFileCheck == old(timerHandler.lastFileCheck)
    {
      this.db := db;
      this.service := service;
      this.collection := collection;
      this.timerHandler := timerHandler;
      dispatched := [];
      new;
      timerHandler.Initialize(db);
    }

    /** `getCursor`: the stored cursor, undefined when the service has no row. */
    function GetCursor(): (c: Option<int>)
      reads this, db
      ensures c.Some? <==> service in db.subState
      ensures c.Some? ==> c.value == db.subState[service]
    {
      StoredCursor(db.subState, service)
    }

    /** `updateCursor`: writes the row of this service, if it exists. */
    method UpdateCursor(cursor: int)
      modifies db`subState
      ensures db.subState == SetCursor(old(db.subState), service, cursor)
    {
      db.UpdateCursor(service, cursor);
    }

    /** The `getParams` object of the subscription. */
    function Params(): seq<(string, QueryValue)>
      reads this, db
    {
      GetParams(GetCursor(), collection)
    }

    /** One chunk of the stream, `i` counting the commits seen modulo 100:
        a commit's batch is handed on, and its `time_us` is written as the
        cursor when it brings the count to 100. */
    method HandleChunk(chunk: Chunk, i: nat) returns (i': nat)
      requires i < 100
      modifies this`dispatched, db`subState
      ensures i' == (i + if IsCommit(chunk) then 1 else 0) % 100
      ensures dispatched == old(dispatched)
        + (if IsCommit(chunk) then [JetstreamBatch(chunk.value.evt)] else [])
      ensures db.subState ==
        if IsCommit(chunk) && i' == 0
        then SetCursor(old(db.subState), service, chunk.value.evt.timeUs)
        else old(db.subState)
    {
      i' := i;
      if chunk.Parsed? && IsJetstreamCommit(chunk.value) {
        var evt := chunk.value.evt;
        var ops := GetJetstreamOpsByType(evt);
        dispatched := dispatched + [ops];
        i' := i' + 1;
        if i' % 100 == 0 {
          UpdateCursor(evt.timeUs);
          i' := 0;
        }
      }
    }

    /** `run`: consumes the stream until it ends or fails. Chunks that are
        not JSON and messages that are not commits are skipped; each
        commit's batch is dispatched in stream order, and the counter `i`
        of commits since the last write triggers a cursor write with the
        event's `time_us` when it reaches 100. A failure schedules a
        restart after `delay`. */
    method Run(delay: int, chunks: seq<Chunk>) returns (restart: Option<int>)
      modifies this`dispatched, db`subState
      ensures dispatched == old(dispatched) + Batches(Commits(Before(chunks, TransportError)))
      ensures db.subState == Checkpoints(old(db.subState), service, Before(chunks, TransportError))
      ensures restart == if TransportError in chunks then Some(delay) else None
    {
      var i := 0;
      var j := 0;
      while j < |chunks|
        invariant 0 <= j <= |chunks|
        invariant TransportError !in chunks[..j]
        invariant 0 <= i < 100 && i == |Commits(chunks[..j])| % 100
        invariant dispatched == old(dispatched) + Batches(Commits(chunks[..j]))
        invariant db.subState == Checkpoints(old(db.subState), service, chunks[..j])
      {
        if chunks[j] == TransportError {
          BeforeAt(chunks, TransportError, j);
          return Some(delay);
        }
        BatchesStep(chunks, j);
        CountStep(chunks, j, i);
        CheckpointsStep(old(db.subState), service, chunks, j);
        NotInStep(chunks, TransportError, j);
        i := HandleChunk(chunks[j], i);
        j := j + 1;
      }
      BeforeAt(chunks, TransportError, j);
      return None;
    }
  }
}
