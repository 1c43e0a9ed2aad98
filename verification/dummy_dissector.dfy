/** The table-driven test dissector: its outputs and their cast sets come
    from one static table of `"<TYPE>:<name>"` keys, shared by every
    instance; an instance holds only its input type, which the settings
    string overwrites. */
module DummyDissector {
  import opened Casts

  /** The six `put` calls of the static initialiser, in order. */
  const ConfigPuts: seq<(string, set<Cast>)> := [
    ("ANY:any", StringOrLongOrDouble),
    ("STRING:string", StringOnly),
    ("INT:int", StringOrLong),
    ("LONG:long", StringOrLong),
    ("FLOAT:float", StringOrDouble),
    ("DOUBLE:double", StringOrDouble)]

  /** The map left by a series of `put` calls on an empty map, a later put of
      the same key replacing an earlier one. */
  function PutAll(puts: seq<(string, set<Cast>)>): (m: map<string, set<Cast>>)
    ensures m.Keys == set i | 0 <= i < |puts| :: puts[i].0
  {
    if |puts| == 0 then map[]
    else
      var last := |puts| - 1;
      assert (set i | 0 <= i < |puts| :: puts[i].0) == (set i | 0 <= i < last :: puts[..last][i].0) + {puts[last].0};
      PutAll(puts[..last])[puts[last].0 := puts[last].1]
  }

  /** When no key is put twice, each key maps to the value it was put with. */
  lemma {:induction false} PutAllLookup(puts: seq<(string, set<Cast>)>, i: nat)
    requires i < |puts|
    requires forall j, k :: 0 <= j < k < |puts| ==> puts[j].0 != puts[k].0
    ensures puts[i].0 in PutAll(puts) && PutAll(puts)[puts[i].0] == puts[i].1
  {
    var last := |puts| - 1;
    if i < last {
      PutAllLookup(puts[..last], i);
    }
  }

  /** The shared configuration table, as the static initialiser fills it. */
  const DissectorConfig: map<string, set<Cast>> := PutAll(ConfigPuts)

  /** The table holds exactly the six keys, each with its cast set. */
  lemma DissectorConfigContents()
    ensures DissectorConfig.Keys ==
      {"ANY:any", "STRING:string", "INT:int", "LONG:long", "FLOAT:float", "DOUBLE:double"}
    ensures DissectorConfig["ANY:any"] == StringOrLongOrDouble
    ensures DissectorConfig["STRING:string"] == StringOnly
    ensures DissectorConfig["INT:int"] == StringOrLong && DissectorConfig["LONG:long"] == StringOrLong
    ensures DissectorConfig["FLOAT:float"] == StringOrDouble && DissectorConfig["DOUBLE:double"] == StringOrDouble
  {
    var keys := set i | 0 <= i < |ConfigPuts| :: ConfigPuts[i].0;
    assert keys == {"ANY:any", "STRING:string", "INT:int", "LONG:long", "FLOAT:float", "DOUBLE:double"} by {
      assert ConfigPuts[0].0 in keys && ConfigPuts[1].0 in keys && ConfigPuts[2].0 in keys;
      assert ConfigPuts[3].0 in keys && ConfigPuts[4].0 in keys && ConfigPuts[5].0 in keys;
    }
    PutAllLookup(ConfigPuts, 0);
    PutAllLookup(ConfigPuts, 1);
    PutAllLookup(ConfigPuts, 2);
    PutAllLookup(ConfigPuts, 3);
    PutAllLookup(ConfigPuts, 4);
    PutAllLookup(ConfigPuts, 5);
  }

  /** Every output of the table may be read as a string, and every cast set
      in it is one of the named ones. */
  lemma ConfigAdmitsString()
    ensures forall key :: key in DissectorConfig ==> STRING in DissectorConfig[key]
    ensures forall key :: key in DissectorConfig ==> IsNamedCastSet(DissectorConfig[key])
  {
    DissectorConfigContents();
  }

  class UltimateDummyDissector {
    /** The input type this instance accepts. */
    var inputType: string
    /** The output table, the one shared static table for every instance. */
    const config: map<string, set<Cast>> := DissectorConfig

    /** The default instance accepts input type "INPUT". */
    constructor ()
      ensures inputType == "INPUT" && config == DissectorConfig
    {
      inputType := "INPUT";
    }

    /** An instance for the given input type. */
    constructor WithInputType(inputType: string)
      ensures this.inputType == inputType && config == DissectorConfig
    {
      this.inputType := inputType;
    }

    /** The settings string becomes the input type, verbatim and without
        validation; the call always succeeds and the table is untouched. */
    method InitializeFromSettingsParameter(settings: string) returns (ok: bool)
      modifies this
      ensures ok
      ensures inputType == settings && config == DissectorConfig
    {
      inputType := settings;
      ok := true;
    }
  }

  /** Any two instances, however constructed or reconfigured, see the same
      table. */
  lemma SharedConfig(a: UltimateDummyDissector, b: UltimateDummyDissector)
    ensures a.config == b.config == DissectorConfig
  {
  }
}
