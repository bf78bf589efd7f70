/** `struct mdio_prog`: the growing instruction buffer the drivers push onto. */
module Program {
  import opened Isa

  class Prog {
    var insns: Code

    constructor ()
      ensures insns == []
    {
      insns := [];
    }

    method Push(insn: Insn)
      modifies this
      ensures insns == old(insns) + [insn]
    {
      insns := insns + [insn];
    }

    function Len(): nat
      reads this
    {
      |insns|
    }
  }
}
