/** The HTTP error replies of the four handlers. */
module Handlers {
  import opened UserStore

  datatype Endpoint = CreateUserEndpoint | AddExerciseEndpoint | LogsEndpoint | ListUsersEndpoint

  datatype ErrorReply = ErrorReply(status: nat, message: string)

  /** The message of each handler's catch block, which a rejected identifier reaches. */
  function CatchMessage(ep: Endpoint): string {
    match ep
    case CreateUserEndpoint => "Error al crear el usuario"
    case AddExerciseEndpoint => "Error al actualizar el ejercicio"
    case LogsEndpoint => "Error al obtener los registros"
    case ListUsersEndpoint => "Error al obtener los usuarios"
  }

  /**
   * Only a missing user is a 404; a missing connection and a malformed
   * identifier are both 500, the latter with the handler's catch message.
   */
  function ErrorFor(ep: Endpoint, e: Error): (r: ErrorReply)
    ensures r.status == 404 <==> e == NotFound
    ensures r.status == 404 || r.status == 500
    ensures e == NotConnected ==> r.message == "Database not connected"
    ensures e == InvalidId ==> r.message == CatchMessage(ep)
  {
    match e
    case NotConnected => ErrorReply(500, "Database not connected")
    case NotFound => ErrorReply(404, "Usuario no encontrado")
    case InvalidId => ErrorReply(500, CatchMessage(ep))
  }
}
