/** Powers of two. */
module Powers {

  function Power2(n: nat): nat { if n == 0 then 1 else 2 * Power2(n - 1) }

  lemma {:induction false} PowerPositive(n: nat)
    ensures Power2(n) >= 1
  {
    if n > 0 {
      PowerPositive(n - 1);
    }
  }
}
