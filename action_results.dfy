/** The outcomes an action hands back to the framework, in place of HTTP status codes. */
module ActionResults {
  import opened Dtos

  datatype ActionResult<T> =
    | Ok(body: ApiResponse<T>)                  // 200 with a body
    | CreatedAt(id: int, body: ApiResponse<T>)  // 201, pointing at the new row's id
    | NotFound(body: ApiResponse<T>)            // 404 with a body
    | NoContent                                 // 204
    | Forbid                                    // 403
}
