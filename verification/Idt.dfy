/** The interrupt descriptor table: gates with the handler address in three pieces. */
module Idt {
  import opened Bytes
  import opened Words

  type Half = x: int | 0 <= x < 0x1_0000
  type Quad = x: int | 0 <= x < 0x1_0000_0000
  type Octet = x: int | 0 <= x < 0x100

  datatype Gate = Gate(
    offsetLo: Half, selector: Half, ist: Octet, typeAttr: Octet, offsetMid: Half, offsetHi: Quad, reserved: Quad)
  {
    /** The handler address that the processor assembles. */
    function Target(): Word {
      offsetLo + 0x1_0000 * offsetMid + 0x1_0000_0000 * offsetHi
    }

    /** A present 64-bit trap or interrupt gate of ring 0, on the current stack, in code segment `cs`. */
    predicate Usable(cs: Half) {
      typeAttr in {TRAP, INTERRUPT} && ist == 0 && selector == cs
    }
  }

  const VECTORS: nat := 256
  const EMPTY: Gate := Gate(0, 0, 0, 0, 0, 0, 0)
  const TRAP: Octet := 0x8F
  const INTERRUPT: Octet := 0x8E

  /** A gate to `handler`, cut into bits 15..0, 31..16 and 63..32. */
  function GateTo(handler: Word, selector: Half, typeAttr: Octet): Gate {
    var lo, mid, hi := handler % 0x1_0000, handler / 0x1_0000 % 0x1_0000, handler / 0x1_0000_0000;
    Gate(lo, selector, 0, typeAttr, mid, hi, 0)
  }

  /**
   The pieces of a gate put together are the handler, so two handlers never share a gate; with
   either type it is usable.
   */
  lemma GateDecodes(handler: Word, selector: Half, typeAttr: Octet)
    ensures GateTo(handler, selector, typeAttr).Target() == handler
    ensures GateTo(handler, selector, typeAttr).Usable(selector) <==> typeAttr in {0x8E, 0x8F}
    ensures var g := GateTo(handler, selector, typeAttr);
            g.selector == selector && g.typeAttr == typeAttr && g.ist == 0 && g.reserved == 0
  {
    var high := handler / 0x1_0000;
    assert handler == handler % 0x1_0000 + 0x1_0000 * high;
    assert handler / 0x1_0000_0000 == high / 0x1_0000;
    assert high == high % 0x1_0000 + 0x1_0000 * (high / 0x1_0000);
  }

  /** The sixteen bytes of a gate in memory, in the order of the packed structure. */
  function GateBytes(g: Gate): seq<Byte> {
    U16(g.offsetLo) + U16(g.selector) + [g.ist, g.typeAttr] + U16(g.offsetMid) + U32(g.offsetHi) + U32(g.reserved)
  }

  lemma LowHalf(x: nat)
    ensures x % 0x1_0000 % 256 == x % 256 && x % 0x1_0000 / 256 % 256 == x / 256 % 256
  {
    var q, low := x / 0x1_0000, x % 0x1_0000;
    assert x == 256 * (256 * q) + low && x / 256 == 256 * q + low / 256;
  }

  /** Where the processor finds the handler (Intel SDM Vol. 3A, section 6.14.1): bytes 0 and 1, and 6 to 11. */
  lemma GateLayout(handler: Word, selector: Half, typeAttr: Octet)
    ensures var b := GateBytes(GateTo(handler, selector, typeAttr));
            && |b| == 16 && b[0] == handler % 256 && b[1] == handler / 256 % 256
            && b[2] == selector % 256 && b[3] == selector / 256 && b[4] == 0 && b[5] == typeAttr
            && b[6] == handler / 0x1_0000 % 256 && b[7] == handler / 0x100_0000 % 256
            && b[8..12] == U32(handler / 0x1_0000_0000) && b[12..] == [0, 0, 0, 0]
  {
    LowHalf(handler);
    LowHalf(handler / 0x1_0000);
    assert handler / 0x100_0000 == handler / 0x1_0000 / 256;
  }

  /** `idtClearAll`. */
  method ClearAll(t: array<Gate>)
    requires t.Length == VECTORS
    modifies t
    ensures forall v | 0 <= v < 256 :: t[v] == Gate(0, 0, 0, 0, 0, 0, 0)
  {
    for i := 0 to VECTORS
      invariant forall v | 0 <= v < i :: t[v] == EMPTY
    {
      t[i] := EMPTY;
    }
  }

  /** `idtSetGate`: one entry decodes to the handler, the other 255 are as before. */
  method SetGate(t: array<Gate>, vector: Octet, handler: Word, selector: Half, typeAttr: Octet)
    requires t.Length == VECTORS
    modifies t
    ensures t[vector].Target() == handler && (t[vector].Usable(selector) <==> typeAttr in {0x8E, 0x8F})
    ensures t[vector].selector == selector && t[vector].typeAttr == typeAttr && t[vector].ist == 0
    ensures t[..] == old(t[..])[vector := GateTo(handler, selector, typeAttr)]
  {
    GateDecodes(handler, selector, typeAttr);
    t[vector] := GateTo(handler, selector, typeAttr);
  }
}
