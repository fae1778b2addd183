/**
  Which types a reader and a writer may have: how compatible types are made of compatible types.
 */
module Compatibility {
  import opened Scripts
  import opened WriterSteps
  import opened WireTypes
  import opened Evolution
  import opened WireFormat

  /** A string is kept as one likes; any other type that is not made of types is itself. */
  lemma SimplesEvolve(c: Cfg, rt: Type, wt: Type)
    requires (rt.Str? && wt.Str?) || (rt == wt && (rt.Bool? || rt.Int? || rt.Quad? || rt.Enum?))
    ensures Evolves(c, rt, wt)
  {
  }

  /** Sequences, and arrays of one size, of compatible elements. */
  lemma CollectionsEvolve(c: Cfg, re: Type, we: Type, n: nat)
    requires Evolves(c, re, we)
    ensures Evolves(c, Seq(re), Seq(we)) && Evolves(c, Arr(re, n), Arr(we, n))
  {
    assert IsPrimitive(re) == IsPrimitive(we);
  }

  /**
    Final structs, and in XCDR1 appendable ones, whose members are compatible one by one; in XCDR2 both must have
    variable length, or neither.
   */
  lemma FinalsEvolve(c: Cfg, rt: Type, wt: Type)
    requires rt.Struct? && wt.Struct? && rt.ext == wt.ext && |rt.types| == |wt.types|
    requires rt.ext == Final || (rt.ext == Appendable && !c.xcdr2)
    requires forall i :: 0 <= i < |rt.types| ==> Evolves(c, rt.types[i], wt.types[i])
    requires c.xcdr2 ==> Varies(rt) == Varies(wt)
    ensures Evolves(c, rt, wt)
  {
    VariesIff(rt);
    VariesIff(wt);
    hide Varies, IsVariableLength;
    assert PrefixEvolves(c, rt.types, wt.types);
  }

  /** In XCDR2, appendable structs of which the reader's has fewer members. */
  lemma AppendablesEvolve(c: Cfg, rt: Type, wt: Type)
    requires c.xcdr2 && rt.Struct? && wt.Struct? && rt.ext == wt.ext == Appendable && |rt.types| <= |wt.types|
    requires forall i :: 0 <= i < |rt.types| ==> Evolves(c, rt.types[i], wt.types[i])
    ensures Evolves(c, rt, wt)
  {
    hide IsVariableLength;
    assert PrefixEvolves(c, rt.types, wt.types);
  }

  /** Mutable structs that share some members, in any order, whatever else each has. */
  lemma MutablesEvolve(c: Cfg, rt: Type, wt: Type)
    requires rt.Struct? && wt.Struct? && rt.ext == wt.ext == Mutable && IsType(rt) && IsType(wt)
    requires forall i, j :: 0 <= i < |rt.types| && 0 <= j < |wt.types| && rt.tags[i].id == wt.tags[j].id ==>
                              Evolves(c, rt.types[i], wt.types[j])
    ensures Evolves(c, rt, wt)
  {
    forall i, j | 0 <= i < |rt.tags| && 0 <= j < |wt.tags| && i < |rt.types| && j < |wt.types| && rt.tags[i].id == wt.tags[j].id
      ensures MayRead(c, rt.types[i], wt.types[j])
    {
      assert Evolves(c, rt.types[i], wt.types[j]);
    }
  }

  /** In XCDR1, a mutable struct one member of which is a struct that lost trailing members. */
  lemma ParametersEvolve(c: Cfg, tag: Tag, rt: Type, wt: Type)
    requires !c.xcdr2 && rt.Struct? && wt.Struct? && rt.ext == wt.ext != Mutable && |rt.types| <= |wt.types|
    requires forall i :: 0 <= i < |rt.types| ==> Evolves(c, rt.types[i], wt.types[i])
    ensures Evolves(c, Struct(Mutable, [tag], [rt]), Struct(Mutable, [tag], [wt]))
  {
    assert PrefixEvolves(c, rt.types, wt.types);
    assert MayRead(c, rt, wt);
  }
}
