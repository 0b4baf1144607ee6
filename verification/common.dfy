/**
 * Shared vocabulary of the user-management system: the user record stored by the
 * server and shown by the list screen, the three fields the screen can filter on,
 * and the two wrapper datatypes that stand in for JavaScript's `null` and for a
 * promise that either resolves or rejects.
 */
module Common {

  /** JavaScript `null` / Python `None` versus a present value. */
  datatype Option<+T> = None | Some(value: T)

  /**
   * The settled state of a promise: it resolved with a value, or it rejected
   * with an `Error` whose `message` is kept.
   */
  datatype Outcome<+T> = Ok(value: T) | Thrown(message: string)

  /**
   * One user, as the `usuarios` table stores it and as every endpoint
   * serialises it: `{id, correo, nombre, edad}`.  All four columns are
   * non-nullable, so every field is a plain value.
   */
  datatype Record = Record(id: int, correo: string, nombre: string, edad: int)

  /** The three options of the list screen's filter selector. */
  datatype Field = Nombre | Correo | Edad
}
