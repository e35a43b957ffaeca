/** verify_input: a raw CSV field to a number, an empty field counting as zero. */
module ScalarParser {
  import opened Wrappers

  /**
   * What the model takes from the host language as given: float() on a
   * non-empty string (None where it raises ValueError), and the cosine and
   * sine of an angle given in degrees (math.cos(math.radians(a)) and
   * math.sin(math.radians(a))).
   */
  datatype Numerics = Numerics(parse: string -> Option<real>, cosDeg: real -> real, sinDeg: real -> real)

  function VerifyInput(num: Numerics, data: string): (r: Result<real>)
    ensures data == "" ==> r == Ok(0.0)
    ensures data != "" && num.parse(data).Some? ==> r == Ok(num.parse(data).value)
    ensures data != "" && num.parse(data).None? ==> r == Err(ValueError)
  {
    if data == "" then Ok(0.0)
    else match num.parse(data)
      case Some(x) => Ok(x)
      case None => Err(ValueError)
  }
}
