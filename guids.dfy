/** `System.Guid`, as far as the core uses it: equality, the `Guid.Empty` sentinel and its text. */
module Guids {

  /** Identifiers are abstract; 0 plays the part of `Guid.Empty`. */
  type Guid = nat

  const EmptyGuid: Guid := 0

  function DigitChar(d: nat): char
    requires d < 10
  {
    "0123456789"[d]
  }

  /** The text an id is printed as in messages (decimal digits standing for the Guid format). */
  function GuidText(id: Guid): (s: string)
    ensures |s| >= 1
  {
    if id < 10 then [DigitChar(id)] else GuidText(id / 10) + [DigitChar(id % 10)]
  }
}
