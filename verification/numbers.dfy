/** Small integer helpers shared by the batcher and the ranking. */
module Numbers {

  /** The smaller of two integers. */
  function Min(a: int, b: int): (r: int)
    ensures r <= a && r <= b
    ensures r == a || r == b
  {
    if a <= b then a else b
  }
}
