/** Options, results and the error kinds the services answer with. */
module Common {
  datatype Option<+T> = None | Some(value: T)

  datatype Error = Forbidden | Invalid | NotFound | Conflict

  datatype Result<+T> = Ok(value: T) | Err(error: Error)

  /** The role ladder: each tier holds every right of those below it. */
  const SUPERVISOR := 2
  const HR_ADMIN := 3
  const SUPER_ADMIN := 4

  datatype Claims = Claims(userID: int, role: int)

  function Max(a: int, b: int): int { if a < b then b else a }

  function Min(a: int, b: int): int { if a < b then a else b }

  function Abs(a: int): int { if a < 0 then -a else a }

  /** Integer division as Go does it: towards zero. */
  function Quot(a: int, b: int): int
    requires b > 0
  {
    if a >= 0 then a / b else -(-a / b)
  }
}
