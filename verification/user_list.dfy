/**
 * The list screen's state machine (src/components/UserList.js): the state
 * the component keeps, each handler as a function from the state (and, for
 * the asynchronous ones, the settled outcomes of the calls it awaits) to the
 * next state, and the invariants those handlers keep.
 */
module UserList {
  import opened Common
  import opened Text
  import FilterEngine

  /** The `type` of a notification: `'success'`, `'info'` or `'error'`. */
  datatype Severity = Success | Info | Error

  datatype Notice = Notice(message: string, severity: Severity)

  /** What `obtenerUsuarios` resolves with: a JSON array of users, or any other JSON value. */
  datatype ListPayload = JsonArray(items: seq<Record>) | NotArray

  /** The component's state hooks. */
  datatype ViewState = ViewState(
    usuarios: seq<Record>,
    usuariosFiltrados: seq<Record>,
    error: Option<string>,
    usuarioEditado: Option<Record>,
    modalOpen: bool,
    confirmDeleteModalOpen: bool,
    usuarioAEliminar: Option<Record>,
    isAddingUser: bool,
    notification: Option<Notice>,
    expandedNames: map<int, bool>,
    filtro: Field,
    busqueda: string,
    totalUsuarios: int)

  const NotArrayMessage := "Los datos obtenidos no son un array"
  const DeletedMessage := "Usuario eliminado de manera exitosa"
  const AddedMessage := "Usuario agregado de manera exitosa"
  const EditedMessage := "Usuario modificado de manera exitosa"

  /** The number of characters of a collapsed long name that stay visible. */
  const NameLimit := 10
  const Ellipsis := "..."

  /** The state on mount, before either fetch has settled. */
  function Initial(): ViewState
  {
    ViewState([], [], None, None, false, false, None, false, None, map[], Nombre, "", 0)
  }

  // Groups of state hooks, for saying which ones a handler leaves alone.

  predicate SameRecords(s: ViewState, r: ViewState)
  {
    s.usuarios == r.usuarios && s.usuariosFiltrados == r.usuariosFiltrados
    && s.totalUsuarios == r.totalUsuarios && s.error == r.error
  }

  predicate SameEditDialog(s: ViewState, r: ViewState)
  {
    s.usuarioEditado == r.usuarioEditado && s.isAddingUser == r.isAddingUser && s.modalOpen == r.modalOpen
  }

  predicate SameDeleteDialog(s: ViewState, r: ViewState)
  {
    s.usuarioAEliminar == r.usuarioAEliminar && s.confirmDeleteModalOpen == r.confirmDeleteModalOpen
  }

  predicate SameDisplay(s: ViewState, r: ViewState)
  {
    s.notification == r.notification && s.expandedNames == r.expandedNames
    && s.filtro == r.filtro && s.busqueda == r.busqueda
  }

  /** The visible list is what the filter derives from the records. */
  predicate Filtered(s: ViewState)
  {
    s.usuariosFiltrados == FilterEngine.Apply(s.usuarios, s.filtro, s.busqueda)
  }

  /**
   * The `aplicarFiltro` effect, run after every render in which `usuarios`,
   * `filtro` or `busqueda` changed: it re-derives the visible list.
   */
  function AplicarFiltro(s: ViewState): (r: ViewState)
    ensures Filtered(r)
    ensures r.usuarios == s.usuarios && r.error == s.error && r.totalUsuarios == s.totalUsuarios
    ensures SameEditDialog(s, r) && SameDeleteDialog(s, r) && SameDisplay(s, r)
    ensures Filtered(s) ==> r == s
  {
    s.(usuariosFiltrados := FilterEngine.Apply(s.usuarios, s.filtro, s.busqueda))
  }

  /** `handleFiltroChange`: select a field; the effect then re-filters. */
  function HandleFiltroChange(s: ViewState, f: Field): (r: ViewState)
    ensures r.filtro == f
    ensures r.busqueda == s.busqueda && r.notification == s.notification && r.expandedNames == s.expandedNames
    ensures SameRecords(s, r) && SameEditDialog(s, r) && SameDeleteDialog(s, r)
  {
    s.(filtro := f)
  }

  /** `handleBusquedaChange`: type a search term; the effect then re-filters. */
  function HandleBusquedaChange(s: ViewState, term: string): (r: ViewState)
    ensures r.busqueda == term
    ensures r.filtro == s.filtro && r.notification == s.notification && r.expandedNames == s.expandedNames
    ensures SameRecords(s, r) && SameEditDialog(s, r) && SameDeleteDialog(s, r)
  {
    s.(busqueda := term)
  }

  /**
   * `fetchUsuarios` once `obtenerUsuarios` has settled.  An array replaces
   * both the records and the visible list; a non-array or a rejection sets
   * `error` and keeps the records.
   */
  function FetchUsuarios(s: ViewState, o: Outcome<ListPayload>): (r: ViewState)
    ensures o.Ok? && o.value.JsonArray? ==>
      r.usuarios == o.value.items && r.usuariosFiltrados == o.value.items && r.error == s.error
    ensures o.Ok? && o.value.NotArray? ==>
      r.error == Some(NotArrayMessage) && r.usuarios == s.usuarios && r.usuariosFiltrados == s.usuariosFiltrados
    ensures o.Thrown? ==>
      r.error == Some(o.message) && r.usuarios == s.usuarios && r.usuariosFiltrados == s.usuariosFiltrados
    ensures r.totalUsuarios == s.totalUsuarios
    ensures SameEditDialog(s, r) && SameDeleteDialog(s, r) && SameDisplay(s, r)
  {
    match o
    case Ok(JsonArray(data)) => s.(usuarios := data, usuariosFiltrados := data)
    case Ok(NotArray) => s.(error := Some(NotArrayMessage))
    case Thrown(message) => s.(error := Some(message))
  }

  /**
   * `fetchTotalUsuarios` once `obtenerTotalUsuarios` has settled: the total
   * is stored, or the rejection becomes `error`.
   */
  function FetchTotalUsuarios(s: ViewState, o: Outcome<int>): (r: ViewState)
    ensures o.Ok? ==> r.totalUsuarios == o.value && r.error == s.error
    ensures o.Thrown? ==> r.error == Some(o.message) && r.totalUsuarios == s.totalUsuarios
    ensures r.usuarios == s.usuarios && r.usuariosFiltrados == s.usuariosFiltrados
    ensures SameEditDialog(s, r) && SameDeleteDialog(s, r) && SameDisplay(s, r)
  {
    match o
    case Ok(total) => s.(totalUsuarios := total)
    case Thrown(message) => s.(error := Some(message))
  }

  /** Both fetches of a reload, awaited in order; each one catches its own rejection. */
  function Reload(s: ViewState, list: Outcome<ListPayload>, total: Outcome<int>): (r: ViewState)
    ensures (list.Ok? && list.value.JsonArray?) ==>
      r.usuarios == list.value.items && r.usuariosFiltrados == list.value.items
    ensures !(list.Ok? && list.value.JsonArray?) ==>
      r.usuarios == s.usuarios && r.usuariosFiltrados == s.usuariosFiltrados
    ensures total.Ok? ==> r.totalUsuarios == total.value
    ensures total.Thrown? ==> r.totalUsuarios == s.totalUsuarios
    ensures total.Thrown? ==> r.error == Some(total.message)
    ensures total.Ok? && list.Thrown? ==> r.error == Some(list.message)
    ensures total.Ok? && list.Ok? && list.value.NotArray? ==> r.error == Some(NotArrayMessage)
    ensures total.Ok? && list.Ok? && list.value.JsonArray? ==> r.error == s.error
    ensures r.error.None? <==> s.error.None? && list.Ok? && list.value.JsonArray? && total.Ok?
    ensures SameEditDialog(s, r) && SameDeleteDialog(s, r) && SameDisplay(s, r)
  {
    FetchTotalUsuarios(FetchUsuarios(s, list), total)
  }

  /** `showNotification`, state part: the new notification replaces any shown one. */
  function ShowNotification(s: ViewState, message: string, severity: Severity): (r: ViewState)
    ensures r.notification == Some(Notice(message, severity))
    ensures r.expandedNames == s.expandedNames && r.filtro == s.filtro && r.busqueda == s.busqueda
    ensures SameRecords(s, r) && SameEditDialog(s, r) && SameDeleteDialog(s, r)
  {
    s.(notification := Some(Notice(message, severity)))
  }

  /** `handleConfirmDelete(usuario)`: open the confirmation dialog for `u`; the edit dialog is left as it is. */
  function HandleConfirmDelete(s: ViewState, u: Record): (r: ViewState)
    ensures r.usuarioAEliminar == Some(u) && r.confirmDeleteModalOpen
    ensures SameRecords(s, r) && SameEditDialog(s, r) && SameDisplay(s, r)
  {
    s.(usuarioAEliminar := Some(u), confirmDeleteModalOpen := true)
  }

  /** `handleEdit(usuario)`: open the edit dialog on `u`; the confirmation dialog is left as it is. */
  function HandleEdit(s: ViewState, u: Record): (r: ViewState)
    ensures r.usuarioEditado == Some(u) && !r.isAddingUser && r.modalOpen
    ensures SameRecords(s, r) && SameDeleteDialog(s, r) && SameDisplay(s, r)
  {
    s.(usuarioEditado := Some(u), isAddingUser := false, modalOpen := true)
  }

  /** `handleAddUser`: open the edit dialog with no target, in adding mode. */
  function HandleAddUser(s: ViewState): (r: ViewState)
    ensures r.usuarioEditado.None? && r.isAddingUser && r.modalOpen
    ensures SameRecords(s, r) && SameDeleteDialog(s, r) && SameDisplay(s, r)
  {
    s.(usuarioEditado := None, isAddingUser := true, modalOpen := true)
  }

  /** `handleCloseModal`: close the edit dialog and forget its target and mode. */
  function HandleCloseModal(s: ViewState): (r: ViewState)
    ensures r.usuarioEditado.None? && !r.isAddingUser && !r.modalOpen
    ensures SameRecords(s, r) && SameDeleteDialog(s, r) && SameDisplay(s, r)
  {
    s.(usuarioEditado := None, isAddingUser := false, modalOpen := false)
  }

  /** `handleCloseConfirmDelete`: close the confirmation dialog and forget its target. */
  function HandleCloseConfirmDelete(s: ViewState): (r: ViewState)
    ensures r.usuarioAEliminar.None? && !r.confirmDeleteModalOpen
    ensures SameRecords(s, r) && SameEditDialog(s, r) && SameDisplay(s, r)
  {
    s.(confirmDeleteModalOpen := false, usuarioAEliminar := None)
  }

  /**
   * `handleDelete` once its calls have settled.  With no target nothing
   * happens.  If `eliminarUsuario` rejects, the rejection becomes `error`
   * and the dialog stays open on its target.  Otherwise both fetches run
   * (each catching its own rejection), the dialog closes and a notification
   * with the success text and the `'error'` type is shown.
   */
  function HandleDelete<T>(s: ViewState, deleted: Outcome<T>, list: Outcome<ListPayload>, total: Outcome<int>): (r: ViewState)
    ensures s.usuarioAEliminar.None? ==> r == s
    ensures s.usuarioAEliminar.Some? && deleted.Thrown? ==>
      r.error == Some(deleted.message) && r.usuarios == s.usuarios && r.usuariosFiltrados == s.usuariosFiltrados
      && r.totalUsuarios == s.totalUsuarios && SameEditDialog(s, r) && SameDeleteDialog(s, r) && SameDisplay(s, r)
    ensures s.usuarioAEliminar.Some? && deleted.Ok? ==>
      && r.usuarioAEliminar.None? && !r.confirmDeleteModalOpen
      && r.notification == Some(Notice(DeletedMessage, Error))
      && SameRecords(Reload(s, list, total), r)
      && SameEditDialog(s, r)
      && r.expandedNames == s.expandedNames && r.filtro == s.filtro && r.busqueda == s.busqueda
      && r.usuarios == (if list.Ok? && list.value.JsonArray? then list.value.items else s.usuarios)
      && r.totalUsuarios == (if total.Ok? then total.value else s.totalUsuarios)
  {
    if s.usuarioAEliminar.None? then s
    else
      match deleted
      case Thrown(message) => s.(error := Some(message))
      case Ok(_) =>
        var reloaded := Reload(s, list, total);
        ShowNotification(HandleCloseConfirmDelete(reloaded), DeletedMessage, Error)
  }

  /** `handleUserAdded`: reload, close the edit dialog, and announce with type `'success'`. */
  function HandleUserAdded(s: ViewState, list: Outcome<ListPayload>, total: Outcome<int>): (r: ViewState)
    ensures r.usuarioEditado.None? && !r.isAddingUser && !r.modalOpen
    ensures r.notification == Some(Notice(AddedMessage, Success))
    ensures SameRecords(Reload(s, list, total), r)
    ensures r.expandedNames == s.expandedNames && r.filtro == s.filtro && r.busqueda == s.busqueda
    ensures SameDeleteDialog(s, r)
    ensures r.usuarios == (if list.Ok? && list.value.JsonArray? then list.value.items else s.usuarios)
    ensures r.totalUsuarios == (if total.Ok? then total.value else s.totalUsuarios)
  {
    ShowNotification(HandleCloseModal(Reload(s, list, total)), AddedMessage, Success)
  }

  /** `handleUserEdited`: reload, close the edit dialog, and announce with type `'info'`. */
  function HandleUserEdited(s: ViewState, list: Outcome<ListPayload>, total: Outcome<int>): (r: ViewState)
    ensures r.usuarioEditado.None? && !r.isAddingUser && !r.modalOpen
    ensures r.notification == Some(Notice(EditedMessage, Info))
    ensures SameRecords(Reload(s, list, total), r)
    ensures r.expandedNames == s.expandedNames && r.filtro == s.filtro && r.busqueda == s.busqueda
    ensures SameDeleteDialog(s, r)
    ensures r.usuarios == (if list.Ok? && list.value.JsonArray? then list.value.items else s.usuarios)
    ensures r.totalUsuarios == (if total.Ok? then total.value else s.totalUsuarios)
  {
    ShowNotification(HandleCloseModal(Reload(s, list, total)), EditedMessage, Info)
  }

  /** `expandedNames[id]` read as a condition: a missing entry is falsy. */
  predicate IsExpanded(expanded: map<int, bool>, id: int)
  {
    id in expanded && expanded[id]
  }

  /** `toggleNameExpansion(id)`: flip that id's flag; every other id keeps its entry. */
  function ToggleNameExpansion(s: ViewState, id: int): (r: ViewState)
    ensures IsExpanded(r.expandedNames, id) == !IsExpanded(s.expandedNames, id)
    ensures r.expandedNames.Keys == s.expandedNames.Keys + {id}
    ensures forall k :: k in s.expandedNames && k != id ==> r.expandedNames[k] == s.expandedNames[k]
    ensures SameRecords(s, r) && SameEditDialog(s, r) && SameDeleteDialog(s, r)
    ensures r.notification == s.notification && r.filtro == s.filtro && r.busqueda == s.busqueda
  {
    s.(expandedNames := s.expandedNames[id := !IsExpanded(s.expandedNames, id)])
  }

  /**
   * `truncateName(name, id)`, text part: an expanded name is shown whole; a
   * collapsed name longer than ten characters shows its first ten followed by
   * "..."; a shorter one is shown whole.
   */
  function TruncateName(expanded: map<int, bool>, name: string, id: int): (t: string)
    ensures IsExpanded(expanded, id) || |name| <= NameLimit ==> t == name
    ensures !IsExpanded(expanded, id) && |name| > NameLimit ==> t == name[..NameLimit] + Ellipsis
    ensures !IsExpanded(expanded, id) ==> |t| <= NameLimit + |Ellipsis|
    ensures forall i :: 0 <= i < NameLimit && i < |name| ==> i < |t| && t[i] == name[i]
  {
    if IsExpanded(expanded, id) then name
    else if |name| > NameLimit then name[..NameLimit] + Ellipsis
    else name
  }

  /** Toggling an id twice restores how every name is shown. */
  lemma ToggleTwiceRestoresDisplay(s: ViewState, id: int, name: string, k: int)
    ensures IsExpanded(ToggleNameExpansion(ToggleNameExpansion(s, id), id).expandedNames, k)
         == IsExpanded(s.expandedNames, k)
    ensures TruncateName(ToggleNameExpansion(ToggleNameExpansion(s, id), id).expandedNames, name, k)
         == TruncateName(s.expandedNames, name, k)
  {
  }

  /** Closing either dialog a second time changes nothing. */
  lemma ClosingIsIdempotent(s: ViewState)
    ensures HandleCloseModal(HandleCloseModal(s)) == HandleCloseModal(s)
    ensures HandleCloseConfirmDelete(HandleCloseConfirmDelete(s)) == HandleCloseConfirmDelete(s)
  {
  }

  /**
   * The handlers do not keep the two dialogs exclusive: opening the edit
   * dialog while the confirmation dialog is open leaves both open.
   */
  lemma BothDialogsCanBeOpen(s: ViewState, u: Record, v: Record)
    ensures HandleEdit(HandleConfirmDelete(s, u), v).modalOpen
    ensures HandleEdit(HandleConfirmDelete(s, u), v).confirmDeleteModalOpen
    ensures HandleConfirmDelete(HandleAddUser(s), u).modalOpen
    ensures HandleConfirmDelete(HandleAddUser(s), u).confirmDeleteModalOpen
    ensures HandleAddUser(HandleConfirmDelete(s, u)).modalOpen
    ensures HandleAddUser(HandleConfirmDelete(s, u)).confirmDeleteModalOpen
    ensures HandleConfirmDelete(HandleEdit(s, v), u).modalOpen
    ensures HandleConfirmDelete(HandleEdit(s, v), u).confirmDeleteModalOpen
  {
  }

  /** Everything that can happen to the screen, with the outcomes of the calls it awaits. */
  datatype Event =
    | UsuariosFetched(list: Outcome<ListPayload>)
    | TotalFetched(total: Outcome<int>)
    | FilterEffect
    | FiltroChanged(field: Field)
    | BusquedaChanged(term: string)
    | ConfirmDelete(target: Record)
    | Edit(target: Record)
    | AddUser
    | CloseModal
    | CloseConfirmDelete
    | Delete(deleted: Outcome<()>, list: Outcome<ListPayload>, total: Outcome<int>)
    | UserAdded(list: Outcome<ListPayload>, total: Outcome<int>)
    | UserEdited(list: Outcome<ListPayload>, total: Outcome<int>)
    | ToggleName(id: int)

  function Step(s: ViewState, e: Event): ViewState
  {
    match e
    case UsuariosFetched(list) => FetchUsuarios(s, list)
    case TotalFetched(total) => FetchTotalUsuarios(s, total)
    case FilterEffect => AplicarFiltro(s)
    case FiltroChanged(f) => HandleFiltroChange(s, f)
    case BusquedaChanged(term) => HandleBusquedaChange(s, term)
    case ConfirmDelete(u) => HandleConfirmDelete(s, u)
    case Edit(u) => HandleEdit(s, u)
    case AddUser => HandleAddUser(s)
    case CloseModal => HandleCloseModal(s)
    case CloseConfirmDelete => HandleCloseConfirmDelete(s)
    case Delete(deleted, list, total) => HandleDelete(s, deleted, list, total)
    case UserAdded(list, total) => HandleUserAdded(s, list, total)
    case UserEdited(list, total) => HandleUserEdited(s, list, total)
    case ToggleName(id) => ToggleNameExpansion(s, id)
  }

  function Run(s: ViewState, events: seq<Event>): ViewState
    decreases |events|
  {
    if events == [] then s else Run(Step(s, events[0]), events[1..])
  }

  /**
   * What the handlers maintain: the visible list is an ordered selection of
   * the records; the confirmation dialog is open exactly when it has a
   * target; a closed edit dialog has no target and is not adding, and an
   * open one is adding exactly when it has no target.
   */
  predicate Valid(s: ViewState)
  {
    && FilterEngine.IsSubsequence(s.usuariosFiltrados, s.usuarios)
    && (s.confirmDeleteModalOpen <==> s.usuarioAEliminar.Some?)
    && (!s.modalOpen ==> s.usuarioEditado.None? && !s.isAddingUser)
    && (s.modalOpen ==> (s.isAddingUser <==> s.usuarioEditado.None?))
  }

  lemma InitialIsValid()
    ensures Valid(Initial())
  {
  }

  lemma StepPreservesValid(s: ViewState, e: Event)
    requires Valid(s)
    ensures Valid(Step(s, e))
  {
    match e
    case UsuariosFetched(list) =>
      if list.Ok? && list.value.JsonArray? {
        FilterEngine.SubsequenceReflexive(list.value.items);
      }
    case FilterEffect =>
      FilterEngine.ApplyIsSubsequence(s.usuarios, s.filtro, s.busqueda);
    case Delete(deleted, list, total) =>
      if list.Ok? && list.value.JsonArray? {
        FilterEngine.SubsequenceReflexive(list.value.items);
      }
    case UserAdded(list, total) =>
      if list.Ok? && list.value.JsonArray? {
        FilterEngine.SubsequenceReflexive(list.value.items);
      }
    case UserEdited(list, total) =>
      if list.Ok? && list.value.JsonArray? {
        FilterEngine.SubsequenceReflexive(list.value.items);
      }
    case _ =>
  }

  /** Every state the screen can reach from mount satisfies `Valid`. */
  lemma {:induction false} RunPreservesValid(s: ViewState, events: seq<Event>)
    requires Valid(s)
    ensures Valid(Run(s, events))
    decreases |events|
  {
    if events != [] {
      StepPreservesValid(s, events[0]);
      RunPreservesValid(Step(s, events[0]), events[1..]);
    }
  }

  lemma StepKeepsError(s: ViewState, e: Event)
    requires s.error.Some?
    ensures Step(s, e).error.Some?
  {
    match e
    case Delete(deleted, list, total) =>
    case UserAdded(list, total) =>
    case UserEdited(list, total) =>
    case _ =>
  }

  /** No handler clears `error`: once set, the screen shows only the error for good. */
  lemma {:induction false} ErrorIsPermanent(s: ViewState, events: seq<Event>)
    requires s.error.Some?
    ensures Run(s, events).error.Some?
    decreases |events|
  {
    if events != [] {
      StepKeepsError(s, events[0]);
      ErrorIsPermanent(Step(s, events[0]), events[1..]);
    }
  }

  /** A filter change followed by its effect leaves the visible list derived from the records. */
  lemma FilterChangeThenEffect(s: ViewState, f: Field, term: string)
    ensures Filtered(Step(Step(s, FiltroChanged(f)), FilterEffect))
    ensures Filtered(Step(Step(s, BusquedaChanged(term)), FilterEffect))
  {
  }

  /**
   * With no search term the fetched array is already the filtered view, so
   * the records and the visible list agree without waiting for the effect.
   */
  lemma FetchWithoutSearchIsFiltered(s: ViewState, items: seq<Record>)
    requires s.busqueda == []
    ensures Filtered(FetchUsuarios(s, Ok(JsonArray(items))))
  {
  }

  /** Mount where the list fetch rejects: only the error is shown, no record and no dialog. */
  lemma MountWithFailedList(message: string, total: Outcome<int>)
    ensures
      var s := Step(Step(Initial(), UsuariosFetched(Thrown(message))), TotalFetched(total));
      && s.error.Some? && s.usuarios == [] && s.usuariosFiltrados == []
      && !s.modalOpen && !s.confirmDeleteModalOpen
  {
  }

  /**
   * Confirming the delete of the second of two users: the records and the
   * total are refetched, the dialog is closed, its target cleared, and one
   * notification is shown.
   */
  lemma DeleteScenario(ana: Record, bob: Record, other: Record)
    ensures
      var loaded := Step(Step(Step(Initial(), UsuariosFetched(Ok(JsonArray([ana, bob])))), TotalFetched(Ok(2))), ConfirmDelete(bob));
      var s := Step(loaded, Delete(Ok(()), Ok(JsonArray([ana])), Ok(1)));
      && s.usuarios == [ana] && s.totalUsuarios == 1
      && !s.confirmDeleteModalOpen && s.usuarioAEliminar.None?
      && s.notification == Some(Notice(DeletedMessage, Error))
      && s.error.None?
  {
  }
}
