/** Random session identifiers: 32 characters drawn from the alphanumeric alphabet. */
module Ids {

  const IdLength: nat := 32
  const AlphabetSize: nat := 62

  predicate IsAlphanumeric(c: char)
  {
    'A' <= c <= 'Z' || 'a' <= c <= 'z' || '0' <= c <= '9'
  }

  /** The alphabet in the sampler's order: upper-case letters, lower-case letters, digits. */
  function AlphabetAt(i: nat): (c: char)
    requires i < AlphabetSize
    ensures IsAlphanumeric(c)
  {
    if i < 26 then ('A' as int + i) as char
    else if i < 52 then ('a' as int + (i - 26)) as char
    else ('0' as int + (i - 52)) as char
  }

  /** The position of an alphanumeric character in the alphabet. */
  function AlphabetIndex(c: char): (i: nat)
    requires IsAlphanumeric(c)
    ensures i < AlphabetSize && AlphabetAt(i) == c
  {
    if 'A' <= c <= 'Z' then c as int - 'A' as int
    else if 'a' <= c <= 'z' then 26 + (c as int - 'a' as int)
    else 52 + (c as int - '0' as int)
  }

  /** A generation or signing id: the first 32 samples of the random source, each drawn
      uniformly from the alphabet (a draw selects the character `draw % 62`). */
  function RandomId(draws: seq<nat>): (id: string)
    requires |draws| >= IdLength
    ensures |id| == IdLength
    ensures forall i :: 0 <= i < |id| ==> IsAlphanumeric(id[i])
  {
    seq(IdLength, i requires 0 <= i < IdLength => AlphabetAt(draws[i] % AlphabetSize))
  }

  /** Every 32-character alphanumeric string is a possible id. */
  lemma RandomIdCoversAll(id: string)
    requires |id| == IdLength
    requires forall i :: 0 <= i < |id| ==> IsAlphanumeric(id[i])
    ensures exists draws :: |draws| == IdLength && RandomId(draws) == id
  {
    var draws := seq(IdLength, i requires 0 <= i < IdLength => AlphabetIndex(id[i]));
    assert RandomId(draws) == id;
  }
}
