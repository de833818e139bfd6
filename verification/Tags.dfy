/** Request tags: values of a 32-bit counter. */
module Tags {

  const TAG_LIMIT: nat := 0x1_0000_0000

  /** The tag of a request: a 32-bit counter, so it wraps around. */
  function Tag(serial: nat): (tag: nat)
    ensures tag < TAG_LIMIT
  {
    if serial < TAG_LIMIT then serial else Tag(serial - TAG_LIMIT)
  }

  lemma {:induction false} TagIsRemainder(serial: nat)
    ensures Tag(serial) == serial % TAG_LIMIT
  {
    if serial >= TAG_LIMIT {
      TagIsRemainder(serial - TAG_LIMIT);
    }
  }

  /** What incrementing the counter does. */
  lemma {:induction false} NextTag(serial: nat)
    ensures Tag(serial + 1) == if Tag(serial) == TAG_LIMIT - 1 then 0 else Tag(serial) + 1
  {
    if serial >= TAG_LIMIT {
      NextTag(serial - TAG_LIMIT);
    }
  }

  lemma SameTagFarApart(a: nat, b: nat)
    requires Tag(a) == Tag(b) && a < b
    ensures b >= TAG_LIMIT
  {
  }
}
