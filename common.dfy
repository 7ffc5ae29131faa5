/** Values shared by the map store and the path finder: positions, the JSON
    values a map file holds, and the Python exceptions the core can raise. */
module Common {

  /** A map position. Positions are only compared and used as dictionary keys. */
  datatype Pos = Pos(x: int, y: int)

  datatype Option<T> = None | Some(value: T)

  /** A JSON value as the map file uses it: a string, a number, a position
      (a JSON list of two numbers) or a list of positions. Both list forms
      are unhashable until converted with `tuple`. `Pair` also stands for
      the converted tuple where one is used as a key: it is the key a
      `KeyError` names when a position is not a stored tile, and `Pairs([])`
      the empty tuple an empty list converts to. */
  datatype Value = Str(s: string) | Num(n: int) | Pair(p: Pos) | Pairs(ps: seq<Pos>)

  /** One JSON object of the map file. */
  type Record = map<string, Value>

  /** The exceptions the core raises. `KeyError` carries the missing key. */
  datatype Error = KeyError(key: Value) | TypeError | NotImplementedError

  datatype Result<T> = Ok(value: T) | Err(error: Error)
}
