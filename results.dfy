/** Success/failure values for the steps of the route renderer.
    Each `Error` stands for the Python exception the corresponding step raises. */
module Results {

  datatype Result<+T> = Ok(value: T) | Err(error: Error)

  datatype Error =
    | NoRoute          // the routing response holds no route to take the first of (IndexError)
    | EmptyRoute       // minimum of the empty list of route coordinates (ValueError)
    | EmptyTileSet     // minimum of the empty list of tiles (ValueError)
    | DegenerateBounds // division by a zero projected width or height (ZeroDivisionError)
}
