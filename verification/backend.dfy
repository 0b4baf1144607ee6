/**
 * The server's collection semantics (backend/app.py): the `usuarios` table as
 * a map from id to record, plus the counter of the `id` serial column, and
 * the six route handlers as functions from the table and the request to the
 * new table and the reply.
 */
module Backend {
  import opened Common

  /** The `usuarios` table and the next value of its `id` sequence. */
  datatype Table = Table(rows: map<int, Record>, nextId: int)

  /**
   * Every stored record sits under its own id and fits its columns, and the
   * sequence is past every id used.
   */
  predicate Valid(t: Table)
  {
    && 1 <= t.nextId
    && forall k :: k in t.rows ==> 1 <= k < t.nextId && t.rows[k].id == k && Fits(t.rows[k])
  }

  /** Column limits: `correo` is `String(255)`, `nombre` is `String(100)`, `edad` is a 32-bit `Integer`. */
  const CorreoLength := 255
  const NombreLength := 100
  const Int32Min := -0x8000_0000
  const Int32Max := 0x7FFF_FFFF

  /** PostgreSQL's `bigint`, the type it coerces `LIMIT` and `OFFSET` to, ends here. */
  const BigintLimit := 0x8000_0000_0000_0000

  predicate InInt32(n: int)
  {
    Int32Min <= n <= Int32Max
  }

  /**
   * `varchar(n)` accepts `s` when every character past the `n`-th is a space;
   * PostgreSQL then cuts those spaces off instead of raising an error.
   */
  predicate FitsColumn(s: string, n: nat)
  {
    forall i :: n <= i < |s| ==> s[i] == ' '
  }

  /** The value `varchar(n)` keeps of a string it accepts: nothing but spaces is cut. */
  function StoredText(s: string, n: nat): (r: string)
    ensures |r| <= n && r <= s
    ensures |s| <= n ==> r == s
    ensures FitsColumn(s, n) ==> forall i :: |r| <= i < |s| ==> s[i] == ' '
  {
    if |s| <= n then s else s[..n]
  }

  /** The record's values fit the columns they are stored in. */
  predicate Fits(u: Record)
  {
    |u.correo| <= CorreoLength && |u.nombre| <= NombreLength && InInt32(u.edad)
  }

  /** JSON bodies the handlers reply with. */
  datatype Body =
    | Usuarios(usuarios: seq<Record>)
    | Usuario(usuario: Record)
    | Mensaje(mensaje: string)
    | TotalUsuarios(total: int)
    | InternalError

  datatype Reply = Reply(status: int, body: Body)

  /** A handler's effect: the table afterwards and the reply sent. */
  datatype Handled = Handled(table: Table, reply: Reply)

  const NotFound := "Usuario no encontrado"
  const MissingData := "Faltan datos"
  const Updated := "Usuario actualizado con éxito"
  const Deleted := "Usuario eliminado exitosamente"

  const DefaultPage := 1
  const DefaultPerPage := 10

  /** Strictly increasing. */
  predicate Ascending(s: seq<int>)
  {
    forall i, j :: 0 <= i < j < |s| ==> s[i] < s[j]
  }

  /** `m` is the smallest of `ids`. */
  predicate IsLeast(m: int, ids: set<int>)
  {
    m in ids && forall k :: k in ids ==> m <= k
  }

  lemma {:induction false} HasLeast(ids: set<int>, x: int)
    requires x in ids
    ensures exists m :: IsLeast(m, ids)
    decreases |ids|
  {
    if !IsLeast(x, ids) {
      var y :| y in ids && y < x;
      var rest := ids - {x};
      assert |rest| < |ids|;
      HasLeast(rest, y);
      var m :| IsLeast(m, rest);
      assert forall k :: k in ids ==> k == x || k in rest;
      assert IsLeast(m, ids);
    }
  }

  /** The smallest element of a non-empty set of ids. */
  function MinOf(ids: set<int>): (m: int)
    requires ids != {}
    ensures IsLeast(m, ids)
  {
    HasLeastOf(ids);
    var m :| IsLeast(m, ids);
    m
  }

  lemma PickOne(ids: set<int>) returns (x: int)
    requires ids != {}
    ensures x in ids
  {
    if forall y :: y !in ids {
      assert false;
    }
    x :| x in ids;
  }

  lemma HasLeastOf(ids: set<int>)
    requires ids != {}
    ensures exists m :: IsLeast(m, ids)
  {
    var x := PickOne(ids);
    HasLeast(ids, x);
  }

  /** `r` lists each id of `ids` once, smallest first. */
  ghost predicate ListsInOrder(r: seq<int>, ids: set<int>)
  {
    && |r| == |ids|
    && (forall k :: k in r <==> k in ids)
    && Ascending(r)
  }

  lemma PrependLeast(m: int, ids: set<int>, rest: seq<int>)
    requires IsLeast(m, ids)
    requires ListsInOrder(rest, ids - {m})
    ensures ListsInOrder([m] + rest, ids)
  {
    var r := [m] + rest;
    assert |ids - {m}| == |ids| - 1;
    assert forall k :: k in r <==> k == m || k in rest;
    forall i, j | 0 <= i < j < |r|
      ensures r[i] < r[j]
    {
      assert r[j] == rest[j - 1];
      if i > 0 {
        assert r[i] == rest[i - 1];
      } else {
        assert rest[j - 1] in ids - {m};
      }
    }
  }

  /** `ORDER BY id ASC` over a set of ids: each id once, smallest first. */
  function SortedIds(ids: set<int>): (r: seq<int>)
    ensures ListsInOrder(r, ids)
    decreases |ids|
  {
    if ids == {} then []
    else
      var m := MinOf(ids);
      var rest := SortedIds(ids - {m});
      PrependLeast(m, ids, rest);
      [m] + rest
  }

  /** The table's records in ascending id order. */
  function Ordered(t: Table): (r: seq<Record>)
    ensures |r| == |t.rows|
    ensures forall i :: 0 <= i < |r| ==> r[i] in t.rows.Values
  {
    var ids := SortedIds(t.rows.Keys);
    assert |t.rows.Keys| == |t.rows|;
    seq(|ids|, i requires 0 <= i < |ids| => t.rows[ids[i]])
  }

  lemma OrderedAt(t: Table, i: int)
    requires 0 <= i < |Ordered(t)|
    ensures Ordered(t)[i] == t.rows[SortedIds(t.rows.Keys)[i]]
  {
  }

  /** In a valid table the ordered records carry strictly increasing ids. */
  lemma OrderedById(t: Table)
    requires Valid(t)
    ensures forall i, j :: 0 <= i < j < |Ordered(t)| ==> Ordered(t)[i].id < Ordered(t)[j].id
  {
    var ids := SortedIds(t.rows.Keys);
    var r := Ordered(t);
    forall i, j | 0 <= i < j < |r|
      ensures r[i].id < r[j].id
    {
      OrderedAt(t, i);
      OrderedAt(t, j);
    }
  }

  /** Every stored record appears in the id order. */
  lemma OrderedHasEveryRecord(t: Table)
    ensures forall k :: k in t.rows ==> t.rows[k] in Ordered(t)
  {
    var ids := SortedIds(t.rows.Keys);
    var r := Ordered(t);
    forall k | k in t.rows
      ensures t.rows[k] in r
    {
      var i :| 0 <= i < |ids| && ids[i] == k;
      OrderedAt(t, i);
    }
  }

  function Min(a: int, b: int): int
  {
    if a <= b then a else b
  }

  /** `(page - 1) * per_page`: the number of records a page skips. */
  function Offset(page: int, perPage: int): int
  {
    (page - 1) * perPage
  }

  /** Page `page + 1` starts `perPage` records after page `page`. */
  lemma NextOffset(page: int, perPage: int)
    ensures Offset(page + 1, perPage) == Offset(page, perPage) + perPage
  {
  }

  /** From the first page on, with a non-negative page size, no page starts before the first record. */
  lemma OffsetNonNegative(page: int, perPage: int)
    requires page >= 1 && perPage >= 0
    ensures Offset(page, perPage) >= 0
  {
  }

  /** `LIMIT limit OFFSET offset` over an ordered result. */
  function Slice(all: seq<Record>, offset: int, limit: int): (r: seq<Record>)
    requires offset >= 0 && limit >= 0
    ensures |r| <= limit
    ensures offset <= |all| ==> |r| == Min(limit, |all| - offset)
    ensures forall i :: 0 <= i < |r| ==> offset + i < |all| && r[i] == all[offset + i]
  {
    all[Min(offset, |all|)..Min(offset + limit, |all|)]
  }

  /**
   * `GET /api/usuarios` (`obtener_usuarios`).  `page` and `perPage` are the
   * query arguments that parsed as integers; a missing or unparsable one
   * takes its default, 1 and 10.  The reply is the slice of the id-ordered
   * records at offset `(page - 1) * perPage` of length at most `perPage`.
   * PostgreSQL rejects a negative LIMIT or OFFSET, and this route catches
   * nothing, so such a request ends in a 500.
   */
  function ObtenerUsuarios(t: Table, page: Option<int>, perPage: Option<int>): (h: Handled)
    ensures h.table == t
    ensures
      var pp := if perPage.Some? then perPage.value else DefaultPerPage;
      var offset := Offset(if page.Some? then page.value else DefaultPage, pp);
      && (h.reply.status == 200 <==> 0 <= pp < BigintLimit && 0 <= offset < BigintLimit)
      && (h.reply.status != 200 ==> h.reply == Reply(500, InternalError))
      && (h.reply.status == 200 ==> h.reply.body == Usuarios(Slice(Ordered(t), offset, pp)))
  {
    var pp := if perPage.Some? then perPage.value else DefaultPerPage;
    var offset := Offset(if page.Some? then page.value else DefaultPage, pp);
    if pp < 0 || offset < 0 || pp >= BigintLimit || offset >= BigintLimit then
      Handled(t, Reply(500, InternalError))
    else
      Handled(t, Reply(200, Usuarios(Slice(Ordered(t), offset, pp))))
  }

  /**
   * The list screen asks without paging arguments: it receives the first ten
   * records by id, or all of them when there are at most ten.
   */
  lemma DefaultListingIsFirstTen(t: Table)
    ensures ObtenerUsuarios(t, None, None).reply
         == Reply(200, Usuarios(Ordered(t)[..Min(DefaultPerPage, |t.rows|)]))
  {
  }

  /**
   * A page number so large that its offset leaves PostgreSQL's `bigint` range
   * makes the query fail: a 500, like a negative one.
   */
  lemma HugePageFails(t: Table)
    ensures ObtenerUsuarios(t, Some(100000000000000000000000), None).reply == Reply(500, InternalError)
    ensures ObtenerUsuarios(t, Some(-1), None).reply == Reply(500, InternalError)
    ensures ObtenerUsuarios(t, None, Some(BigintLimit)).reply == Reply(500, InternalError)
  {
  }

  /** The records a listing replied with; none when it failed. */
  function Listed(t: Table, page: Option<int>, perPage: Option<int>): seq<Record>
  {
    var h := ObtenerUsuarios(t, page, perPage);
    if h.reply.body.Usuarios? then h.reply.body.usuarios else []
  }

  /**
   * An explicit page and page size within `bigint` range select the slice at
   * that page's offset.
   */
  lemma ListingIsSlice(t: Table, p: int, pp: int)
    requires p >= 1 && pp >= 0
    requires pp < BigintLimit && Offset(p, pp) < BigintLimit
    ensures Offset(p, pp) >= 0
    ensures Listed(t, Some(p), Some(pp)) == Slice(Ordered(t), Offset(p, pp), pp)
  {
    OffsetNonNegative(p, pp);
  }

  /**
   * Two slices of the same size, the second starting where the first ends,
   * together cover the records between them: with `ListingIsSlice` and
   * `NextOffset`, page `p + 1` continues page `p` with nothing skipped.
   */
  lemma SlicesAdjoin(all: seq<Record>, offset: int, limit: int)
    requires offset >= 0 && limit >= 0
    ensures Slice(all, offset, limit) + Slice(all, offset + limit, limit)
         == all[Min(offset, |all|)..Min(offset + limit + limit, |all|)]
  {
    var a := Min(offset, |all|);
    var b := Min(offset + limit, |all|);
    var c := Min(offset + limit + limit, |all|);
    assert all[a..b] + all[b..c] == all[a..c];
  }

  /** `GET /api/usuarios/<id>` (`obtener_usuario_por_id`). */
  function ObtenerUsuarioPorId(t: Table, id: int): (h: Handled)
    ensures h.table == t
    ensures id in t.rows <==> h.reply.status == 200
    ensures id in t.rows ==> h.reply.body == Usuario(t.rows[id])
    ensures id !in t.rows ==> h.reply == Reply(404, Mensaje(NotFound))
  {
    if id in t.rows then Handled(t, Reply(200, Usuario(t.rows[id])))
    else Handled(t, Reply(404, Mensaje(NotFound)))
  }

  /**
   * The JSON body of a create or update: each member absent or present with
   * its value.  For create, a `null` member reads as absent too.
   */
  datatype Payload = Payload(correo: Option<string>, nombre: Option<string>, edad: Option<int>)

  /** Python truthiness of a string member: `None` and `''` are falsy. */
  predicate TruthyText(v: Option<string>)
  {
    v.Some? && v.value != ""
  }

  /** Python truthiness of an integer member: `None` and `0` are falsy. */
  predicate TruthyNumber(v: Option<int>)
  {
    v.Some? && v.value != 0
  }

  /**
   * Every member present in the body is accepted by its column; otherwise the
   * commit fails and the `except` branch answers 500 after a rollback.
   */
  predicate PayloadFits(data: Payload)
  {
    && (data.correo.Some? ==> FitsColumn(data.correo.value, CorreoLength))
    && (data.nombre.Some? ==> FitsColumn(data.nombre.value, NombreLength))
    && (data.edad.Some? ==> InInt32(data.edad.value))
  }

  /** The body as the columns keep it: present strings cut to their column's length. */
  function Stored(data: Payload): Payload
  {
    Payload(
      if data.correo.Some? then Some(StoredText(data.correo.value, CorreoLength)) else None,
      if data.nombre.Some? then Some(StoredText(data.nombre.value, NombreLength)) else None,
      data.edad)
  }

  /**
   * `POST /api/usuarios` (`crear_usuario`).  A missing or falsy `correo`,
   * `nombre` or `edad` is a 400 that stores nothing; a value its column does
   * not accept makes the commit fail, a 500 that stores nothing; otherwise the
   * record, its strings cut to their columns, is inserted under the sequence's
   * next id and read back into the 201 reply.
   */
  function CrearUsuario(t: Table, data: Payload): (h: Handled)
    ensures h.reply.status == 400 <==> !(TruthyText(data.correo) && TruthyText(data.nombre) && TruthyNumber(data.edad))
    ensures h.reply.status == 400 ==> h.table == t && h.reply.body == Mensaje(MissingData)
    ensures h.reply.status == 500 <==>
      TruthyText(data.correo) && TruthyText(data.nombre) && TruthyNumber(data.edad) && !PayloadFits(data)
    ensures h.reply.status == 500 ==> h == Handled(t, Reply(500, InternalError))
    ensures h.reply.status != 400 && h.reply.status != 500 ==>
      && h.reply.status == 201
      && h.reply.body == Usuario(Record(t.nextId, StoredText(data.correo.value, CorreoLength),
                                        StoredText(data.nombre.value, NombreLength), data.edad.value))
      && h.table.rows == t.rows[t.nextId := h.reply.body.usuario]
      && h.table.nextId == t.nextId + 1
    ensures Valid(t) ==> Valid(h.table)
    ensures Valid(t) && h.reply.status == 201 ==>
      && t.nextId !in t.rows
      && |h.table.rows| == |t.rows| + 1
      && (forall k :: k in t.rows ==> k in h.table.rows && h.table.rows[k] == t.rows[k])
  {
    if !TruthyText(data.correo) || !TruthyText(data.nombre) || !TruthyNumber(data.edad) then
      Handled(t, Reply(400, Mensaje(MissingData)))
    else if !PayloadFits(data) then
      Handled(t, Reply(500, InternalError))
    else
      var nuevo := Record(t.nextId, StoredText(data.correo.value, CorreoLength),
                          StoredText(data.nombre.value, NombreLength), data.edad.value);
      Handled(Table(t.rows[t.nextId := nuevo], t.nextId + 1), Reply(201, Usuario(nuevo)))
  }

  /** The fields of `u` overwritten by the members present in `data`; the id is kept. */
  function Merge(u: Record, data: Payload): (r: Record)
    ensures r.id == u.id
    ensures r.correo == if data.correo.Some? then data.correo.value else u.correo
    ensures r.nombre == if data.nombre.Some? then data.nombre.value else u.nombre
    ensures r.edad == if data.edad.Some? then data.edad.value else u.edad
  {
    var u := if data.correo.Some? then u.(correo := data.correo.value) else u;
    var u := if data.nombre.Some? then u.(nombre := data.nombre.value) else u;
    if data.edad.Some? then u.(edad := data.edad.value) else u
  }

  /**
   * `PUT /api/usuarios/<id>` (`actualizar_usuario`).  An absent id is a 404
   * that changes nothing; a present member its column does not accept makes
   * the commit fail, a 500 that changes nothing; otherwise only the members
   * present in the body are overwritten (with no truthiness test, strings cut
   * to their columns) and no other record changes.
   */
  function ActualizarUsuario(t: Table, id: int, data: Payload): (h: Handled)
    ensures id !in t.rows ==> h == Handled(t, Reply(404, Mensaje(NotFound)))
    ensures id in t.rows && !PayloadFits(data) ==> h == Handled(t, Reply(500, InternalError))
    ensures id in t.rows && PayloadFits(data) ==>
      && h.reply == Reply(200, Mensaje(Updated))
      && h.table.nextId == t.nextId
      && h.table.rows.Keys == t.rows.Keys
      && h.table.rows[id] == Merge(t.rows[id], Stored(data))
      && (forall k :: k in t.rows && k != id ==> h.table.rows[k] == t.rows[k])
    ensures Valid(t) ==> Valid(h.table)
  {
    if id !in t.rows then Handled(t, Reply(404, Mensaje(NotFound)))
    else if !PayloadFits(data) then Handled(t, Reply(500, InternalError))
    else Handled(t.(rows := t.rows[id := Merge(t.rows[id], Stored(data))]), Reply(200, Mensaje(Updated)))
  }

  /**
   * `DELETE /api/usuarios/<id>` (`eliminar_usuario`).  An absent id is a 404
   * that changes nothing; otherwise exactly that record goes.
   */
  function EliminarUsuario(t: Table, id: int): (h: Handled)
    ensures id !in t.rows ==> h == Handled(t, Reply(404, Mensaje(NotFound)))
    ensures id in t.rows ==>
      && h.reply == Reply(200, Mensaje(Deleted))
      && h.table.nextId == t.nextId
      && h.table.rows.Keys == t.rows.Keys - {id}
      && |h.table.rows| == |t.rows| - 1
      && (forall k :: k in h.table.rows ==> h.table.rows[k] == t.rows[k])
    ensures Valid(t) ==> Valid(h.table)
  {
    if id !in t.rows then Handled(t, Reply(404, Mensaje(NotFound)))
    else Handled(t.(rows := t.rows - {id}), Reply(200, Mensaje(Deleted)))
  }

  /** `GET /api/usuarios/total` (`obtener_total_usuarios`): the number of stored records. */
  function ObtenerTotalUsuarios(t: Table): (h: Handled)
    ensures h.table == t
    ensures h.reply.status == 200 && h.reply.body.TotalUsuarios?
    ensures h.reply.body.total == |Ordered(t)|
  {
    Handled(t, Reply(200, TotalUsuarios(|t.rows|)))
  }

  /**
   * The count does not depend on paging: a single page large enough holds
   * exactly `total` records, while the default listing holds at most ten.
   */
  lemma TotalIndependentOfPageSize(t: Table, pp: int)
    requires |t.rows| <= pp < BigintLimit
    ensures Listed(t, Some(1), Some(pp)) == Ordered(t)
    ensures |Listed(t, Some(1), Some(pp))| == ObtenerTotalUsuarios(t).reply.body.total
    ensures |Listed(t, None, None)| == Min(DefaultPerPage, ObtenerTotalUsuarios(t).reply.body.total)
  {
  }

  /**
   * An age beyond the 32-bit `edad` column fails at commit: create and update
   * both answer 500 and leave the table as it was.
   */
  lemma OutOfRangeAgeFails(t: Table, id: int)
    requires id in t.rows
    ensures CrearUsuario(t, Payload(Some("ana@x.com"), Some("Ana"), Some(3000000000))) == Handled(t, Reply(500, InternalError))
    ensures ActualizarUsuario(t, id, Payload(None, None, Some(3000000000))) == Handled(t, Reply(500, InternalError))
  {
  }

  /**
   * An address one character too long for `correo` is cut and stored when
   * that character is a space, and makes the commit fail otherwise.
   */
  lemma TrailingSpacesAreCut(t: Table)
    ensures
      var h := CrearUsuario(t, Payload(Some(seq(CorreoLength, _ => 'a') + " "), Some("Ana"), Some(30)));
      h.reply.status == 201 && h.reply.body.Usuario? && h.reply.body.usuario.correo == seq(CorreoLength, _ => 'a')
    ensures CrearUsuario(t, Payload(Some(seq(CorreoLength, _ => 'a') + "x"), Some("Ana"), Some(30)))
         == Handled(t, Reply(500, InternalError))
  {
    var long := seq(CorreoLength, _ => 'a');
    assert FitsColumn(long + " ", CorreoLength);
    assert (long + " ")[..CorreoLength] == long;
    assert (long + "x")[CorreoLength] == 'x';
  }

  /** A created record can be read back under the id the reply carries. */
  lemma CreateThenGet(t: Table, data: Payload)
    requires Valid(t)
    ensures
      var c := CrearUsuario(t, data);
      c.reply.status == 201 ==>
        ObtenerUsuarioPorId(c.table, c.reply.body.usuario.id).reply == Reply(200, c.reply.body)
  {
  }

  /** After a delete the id is gone: reading or deleting it again is a 404. */
  lemma DeleteThenGet(t: Table, id: int)
    ensures
      var d := EliminarUsuario(t, id);
      && ObtenerUsuarioPorId(d.table, id).reply == Reply(404, Mensaje(NotFound))
      && EliminarUsuario(d.table, id) == Handled(d.table, Reply(404, Mensaje(NotFound)))
  {
  }

  /** An update with an empty body leaves the table as it was. */
  lemma EmptyUpdateChangesNothing(t: Table, id: int)
    ensures ActualizarUsuario(t, id, Payload(None, None, None)).table == t
  {
    if id in t.rows {
      assert t.rows[id := t.rows[id]] == t.rows;
    }
  }

  /** Creating a valid record then deleting it restores the rows; only the sequence has moved on. */
  lemma CreateThenDeleteRestoresRows(t: Table, data: Payload)
    requires Valid(t)
    ensures
      var c := CrearUsuario(t, data);
      c.reply.status == 201 ==> EliminarUsuario(c.table, t.nextId).table == t.(nextId := t.nextId + 1)
  {
    var c := CrearUsuario(t, data);
    if c.reply.status == 201 {
      assert t.nextId !in t.rows;
      assert c.table.rows - {t.nextId} == t.rows;
    }
  }
}
