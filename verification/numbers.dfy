// Math.max on whole numbers.
module Numbers {

  function Max(m: nat, n: nat): (r: nat) {
    if m >= n then m else n
  }
}
