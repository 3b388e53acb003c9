/** Powers of real numbers. */
module Powers {
  function Pow(x: real, n: nat): real {
    if n == 0 then 1.0 else Pow(x, n - 1) * x
  }
}
