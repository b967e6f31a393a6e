/** PropertyAccessFloat: the arithmetic of float-valued properties. */
module PropertyAccessFloat {
  function Scale(value: real, scale: real): real
  {
    value * scale
  }

  function Sum(v1: real, v2: real): real
  {
    v1 + v2
  }
}
