/** The value representations a dissected field may be consumed as, and the
    four cast sets the two dissectors use. Every set contains STRING: a
    dissected value can always be read back as its original text. */
module Casts {

  datatype Cast = STRING | LONG | DOUBLE

  const StringOnly: set<Cast> := {STRING}
  const StringOrLong: set<Cast> := {STRING, LONG}
  const StringOrDouble: set<Cast> := {STRING, DOUBLE}
  const StringOrLongOrDouble: set<Cast> := {STRING, LONG, DOUBLE}

  /** The cast sets this model knows by name. */
  predicate IsNamedCastSet(s: set<Cast>)
  {
    s == StringOnly || s == StringOrLong || s == StringOrDouble || s == StringOrLongOrDouble
  }

  /** Every named cast set is non-empty and admits STRING. */
  lemma NamedCastSetsAdmitString(s: set<Cast>)
    requires IsNamedCastSet(s)
    ensures STRING in s && |s| >= 1
  {
  }
}
