/** The two tables the core touches, as maps: `sub_state` (service name to
    stored cursor) and `post` (rows keyed by uri; the key is an assumption,
    the schema is not part of this model). */
module Store {
  import opened Wrappers
  import opened Timer

  datatype PostRow = PostRow(uri: string, cid: string, indexedAt: Millis)

  /** `sub_state`: one stored cursor per service. */
  type SubState = map<string, int>

  /** `post`: rows keyed by their uri. */
  type PostTable = map<string, PostRow>

  class Database {
    var subState: SubState
    var post: PostTable

    constructor (subState: SubState, post: PostTable)
      ensures this.subState == subState && this.post == post
    {
      this.subState := subState;
      this.post := post;
    }

    /** `deleteFrom('post').where('uri', 'in', uris)`. */
    method DeletePosts(uris: seq<string>)
      modifies this`post
      ensures post == DeleteUris(old(post), uris)
    {
      post := DeleteUris(post, uris);
    }

    /** `insertInto('post').values(rows).onConflict(doNothing)`. */
    method InsertPosts(rows: seq<PostRow>)
      modifies this`post
      ensures post == InsertIgnore(old(post), rows)
    {
      post := InsertIgnore(post, rows);
    }

    /** `updateTable('sub_state').set({ cursor }).where('service', '=', service)`. */
    method UpdateCursor(service: string, cursor: int)
      modifies this`subState
      ensures subState == SetCursor(old(subState), service, cursor)
    {
      subState := SetCursor(subState, service, cursor);
    }
  }

  /** `select ... where service = s`: the stored cursor, if the row exists. */
  function StoredCursor(state: SubState, service: string): (c: Option<int>)
    ensures c.Some? <==> service in state
    ensures c.Some? ==> c.value == state[service]
  {
    if service in state then Some(state[service]) else None
  }

  /** `update sub_state set cursor = c where service = s`: an update, not an
      upsert. Only the row of `service` changes, and only if it exists. */
  function SetCursor(state: SubState, service: string, cursor: int): (r: SubState)
    ensures r.Keys == state.Keys
    ensures forall s :: s in state && s != service ==> r[s] == state[s]
    ensures service in state ==> r[service] == cursor
  {
    if service in state then state[service := cursor] else state
  }

  /** Writing the same cursor twice is the same as writing it once. */
  lemma SetCursorIdempotent(state: SubState, service: string, cursor: int)
    ensures SetCursor(SetCursor(state, service, cursor), service, cursor) == SetCursor(state, service, cursor)
  {
  }

  /** After a write, a read returns the written cursor if the row existed,
      and still nothing if it did not. */
  lemma ReadAfterWrite(state: SubState, service: string, cursor: int)
    ensures StoredCursor(SetCursor(state, service, cursor), service)
         == (if service in state then Some(cursor) else None)
  {
  }

  /** Every row is stored under its own uri. */
  predicate KeyedByUri(t: PostTable)
  {
    forall u :: u in t ==> t[u].uri == u
  }

  /** `delete from post where uri in uris`. */
  function DeleteUris(t: PostTable, uris: seq<string>): (r: PostTable)
    ensures r.Keys == t.Keys - set i | 0 <= i < |uris| :: uris[i]
    ensures forall u :: u in r ==> r[u] == t[u]
    ensures KeyedByUri(t) ==> KeyedByUri(r)
  {
    map u | u in t && u !in uris :: t[u]
  }

  /** Deleting no uri leaves the table as it is. */
  lemma DeleteNothing(t: PostTable)
    ensures DeleteUris(t, []) == t
  {
  }

  /** The uris of a list of rows. */
  function UrisOf(rows: seq<PostRow>): set<string>
  {
    set i | 0 <= i < |rows| :: rows[i].uri
  }

  /** `rows[i]` is the first row of the list with its uri. */
  predicate FirstWithUri(rows: seq<PostRow>, i: int)
  {
    0 <= i < |rows| && forall j :: 0 <= j < i ==> rows[j].uri != rows[i].uri
  }

  /** `insert into post values rows on conflict do nothing`: a row whose uri
      is already present, in the table or earlier in the same list, is
      ignored. Existing rows are never changed. */
  function InsertIgnore(t: PostTable, rows: seq<PostRow>): (r: PostTable)
    ensures r.Keys == t.Keys + UrisOf(rows)
    ensures forall u :: u in t ==> r[u] == t[u]
    ensures forall i :: FirstWithUri(rows, i) && rows[i].uri !in t ==> r[rows[i].uri] == rows[i]
    ensures KeyedByUri(t) ==> KeyedByUri(r)
    decreases |rows|
  {
    if rows == [] then t
    else
      var x := rows[0];
      var t' := if x.uri in t then t else t[x.uri := x];
      var r := InsertIgnore(t', rows[1..]);
      UrisOfCons(rows);
      FirstRowsStep(t, t', rows, r);
      r
  }

  /** The first row of each new uri survives one more row in front. */
  lemma FirstRowsStep(t: PostTable, t': PostTable, rows: seq<PostRow>, r: PostTable)
    requires rows != []
    requires t' == if rows[0].uri in t then t else t[rows[0].uri := rows[0]]
    requires r.Keys == t'.Keys + UrisOf(rows[1..])
    requires forall u :: u in t' ==> r[u] == t'[u]
    requires forall i :: FirstWithUri(rows[1..], i) && rows[1..][i].uri !in t' ==> r[rows[1..][i].uri] == rows[1..][i]
    ensures forall i :: FirstWithUri(rows, i) && rows[i].uri !in t ==> r[rows[i].uri] == rows[i]
  {
    forall i | FirstWithUri(rows, i) && rows[i].uri !in t
      ensures rows[i].uri in r && r[rows[i].uri] == rows[i]
    {
      if i == 0 {
        assert t'[rows[0].uri] == rows[0];
      } else {
        assert rows[i].uri != rows[0].uri && rows[i].uri !in t';
        assert rows[1..][i - 1] == rows[i];
        assert FirstWithUri(rows[1..], i - 1);
      }
    }
  }

  lemma UrisOfCons(rows: seq<PostRow>)
    requires rows != []
    ensures UrisOf(rows) == {rows[0].uri} + UrisOf(rows[1..])
  {
    forall u | u in UrisOf(rows) ensures u in {rows[0].uri} + UrisOf(rows[1..]) {
      var i :| 0 <= i < |rows| && rows[i].uri == u;
      if i > 0 { assert rows[1..][i - 1].uri == u; }
    }
  }

  /** Delete-then-insert in one call: a uri that is both deleted and
      inserted ends up present, holding the first inserted row; a uri
      that is neither keeps its old row. */
  lemma DeleteThenInsert(t: PostTable, uris: seq<string>, rows: seq<PostRow>)
    ensures forall i :: FirstWithUri(rows, i) && rows[i].uri in uris
              ==> InsertIgnore(DeleteUris(t, uris), rows)[rows[i].uri] == rows[i]
    ensures forall u :: u in t && u !in uris && u !in UrisOf(rows)
              ==> InsertIgnore(DeleteUris(t, uris), rows)[u] == t[u]
    ensures forall u :: u in t && u !in uris ==> InsertIgnore(DeleteUris(t, uris), rows)[u] == t[u]
  {
  }
}
