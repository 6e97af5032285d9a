/** The values shared by the loaders and the instance: what the loaders see
    of a text file, how they fail, points, and loop counts. */
module Common {

  /** A text file as `operator>>` on an `std::ifstream` sees it: either it
      cannot be opened, or it yields the integers that successive `operator>>`
      calls extract from it, in order, up to the first failed extraction. */
  datatype File = Unopenable | Opened(ints: seq<int>)

  /** The one exception the loaders throw: `std::invalid_argument`, with its message. */
  datatype Error = InvalidArgument(message: string)

  /** Either the loaded value or the exception that aborted loading. */
  datatype Result<+T> = Success(value: T) | Failure(error: Error)

  datatype Option<+T> = None | Some(value: T)

  /** A point with integer coordinates: a grid position or a pixel position. */
  datatype Point = Point(x: int, y: int)

  /** The number of iterations of `for (int i = 0; i < n; i++)`. */
  function Max0(n: int): nat
  {
    if n > 0 then n else 0
  }
}
