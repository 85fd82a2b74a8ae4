/** The indicator features the form derives from its holiday radio button and
    its dish select box. Both widgets yield the label the user picked. */
module Features {

  // The holiday radio button's four labels.
  const NoHolidayLabel: string := "Nenhuma"
  const HolidayLabel: string := "Feriado"
  const PreHolidayLabel: string := "Pré-feriado"
  const PostHolidayLabel: string := "Pós-feriado"
  const HolidayOptions: seq<string> := [NoHolidayLabel, HolidayLabel, PreHolidayLabel, PostHolidayLabel]

  /** The three binary holiday features `feriado`, `pre_feriado`, `pos_feriado`. */
  datatype HolidayFlags = HolidayFlags(holiday: int, preHoliday: int, postHoliday: int)

  predicate IsBit(b: int) {
    b == 0 || b == 1
  }

  /** Each flag is 1 exactly when its label is picked, so at most one is set,
      and none is set for any other label. */
  function HolidayIndicators(option: string): (f: HolidayFlags)
    ensures IsBit(f.holiday) && IsBit(f.preHoliday) && IsBit(f.postHoliday)
    ensures f.holiday + f.preHoliday + f.postHoliday <= 1
    ensures f.holiday == 1 <==> option == HolidayLabel
    ensures f.preHoliday == 1 <==> option == PreHolidayLabel
    ensures f.postHoliday == 1 <==> option == PostHolidayLabel
  {
    HolidayFlags(
      if option == HolidayLabel then 1 else 0,
      if option == PreHolidayLabel then 1 else 0,
      if option == PostHolidayLabel then 1 else 0)
  }

  /** Among the radio button's labels, all three flags are 0 exactly for 'Nenhuma'. */
  lemma NoFlagExactlyForNenhuma(option: string)
    requires option in HolidayOptions
    ensures HolidayIndicators(option) == HolidayFlags(0, 0, 0) <==> option == NoHolidayLabel
  {
  }

  /** Inverse of the flags: the radio label they encode. */
  function HolidayOptionOf(f: HolidayFlags): (option: string)
    ensures option in HolidayOptions
  {
    if f.holiday == 1 then HolidayLabel
    else if f.preHoliday == 1 then PreHolidayLabel
    else if f.postHoliday == 1 then PostHolidayLabel
    else NoHolidayLabel
  }

  /** The flags lose nothing: the picked label can be read back from them. */
  lemma HolidayFlagsRoundTrip(option: string)
    requires option in HolidayOptions
    ensures HolidayOptionOf(HolidayIndicators(option)) == option
  {
  }

  // The dish select box: a placeholder, then the visible dish names; each
  // name has the model feature key at the same position.
  const NoDish: string := "Nenhum selecionado"
  const VisibleNames: seq<string> := [
    "Frango", "Frango cremoso", "Bovino cremoso", "Bovino ensopado",
    "Misto", "Peixe/Frutos do mar", "Sem serviço", "Suíno"]
  const ModelKeys: seq<string> := [
    "prato_aves", "prato_aves_cremosas", "prato_bovino_cremosas", "prato_bovino_ensopadas",
    "prato_mistos", "prato_peixe_fruto_do_mar", "prato_sem_serviço", "prato_suino"]
  const DishOptions: seq<string> := [NoDish] + VisibleNames

  predicate Distinct(s: seq<string>) {
    forall i, j :: 0 <= i < j < |s| ==> s[i] != s[j]
  }

  lemma DishTablesWellFormed()
    ensures |VisibleNames| == |ModelKeys| == 8
    ensures IsDishTable(VisibleNames, ModelKeys, NoDish)
    ensures forall k :: k in ModelKeys ==> k[..6] == "prato_"
  {
  }

  /** Python's `list.index`: the first position holding `x`. */
  function IndexOf(s: seq<string>, x: string): (i: nat)
    requires x in s
    ensures i < |s| && s[i] == x
    ensures forall j :: 0 <= j < i ==> s[j] != x
  {
    if s[0] == x then 0 else 1 + IndexOf(s[1..], x)
  }

  /** The shape the two dish tables have: as many names as keys, no name or
      key twice, and the placeholder not among the names. */
  predicate IsDishTable(names: seq<string>, keys: seq<string>, none: string) {
    |names| == |keys| && Distinct(names) && Distinct(keys) && none !in names
  }

  /** One-hot encoding over a dish table: the key at position `i` is 1
      exactly when the name at position `i` is selected. */
  function OneHot(names: seq<string>, keys: seq<string>, sel: string): (m: map<string, int>)
    requires |names| == |keys| && Distinct(keys)
  {
    map i | 0 <= i < |keys| :: keys[i] := if names[i] == sel then 1 else 0
  }

  /** The value at each position's key. */
  lemma OneHotAt(names: seq<string>, keys: seq<string>, sel: string)
    requires |names| == |keys| && Distinct(keys)
    ensures OneHot(names, keys, sel).Keys == set k | k in keys
    ensures forall i :: 0 <= i < |keys| ==>
      OneHot(names, keys, sel)[keys[i]] == if names[i] == sel then 1 else 0
  {
  }

  /** Every key is present and a bit; none is set for the placeholder, and
      otherwise exactly the key at the selected name's position is set. */
  lemma OneHotSetsOneKey(names: seq<string>, keys: seq<string>, none: string, sel: string)
    requires IsDishTable(names, keys, none)
    requires sel == none || sel in names
    ensures OneHot(names, keys, sel).Keys == set k | k in keys
    ensures forall k :: k in OneHot(names, keys, sel) ==> IsBit(OneHot(names, keys, sel)[k])
    ensures sel == none ==> SetKeys(OneHot(names, keys, sel)) == {}
    ensures sel != none ==> SetKeys(OneHot(names, keys, sel)) == {keys[IndexOf(names, sel)]}
  {
    var m := OneHot(names, keys, sel);
    OneHotAt(names, keys, sel);
    forall k | k in m
      ensures exists i :: 0 <= i < |keys| && keys[i] == k && m[k] == if names[i] == sel then 1 else 0
    {
      assert k in keys;
      var i :| 0 <= i < |keys| && keys[i] == k;
    }
    if sel != none {
      var idx := IndexOf(names, sel);
      forall k | k in SetKeys(m)
        ensures k == keys[idx]
      {
        var i :| 0 <= i < |keys| && keys[i] == k && m[k] == if names[i] == sel then 1 else 0;
        assert names[i] == sel;
      }
      assert keys[idx] in SetKeys(m);
    } else {
      assert SetKeys(m) == {};
    }
  }

  /** Every key at 0: `{chave: 0 for chave in chaves_modelo}`. */
  function Zeros(keys: seq<string>): (m: map<string, int>)
    ensures m.Keys == set k | k in keys
    ensures forall k :: k in m ==> m[k] == 0
  {
    map k | k in keys :: 0
  }

  /** With the placeholder selected, the one-hot encoding is all zeros. */
  lemma OneHotOfPlaceholder(names: seq<string>, keys: seq<string>, none: string)
    requires IsDishTable(names, keys, none)
    ensures OneHot(names, keys, none) == Zeros(keys)
  {
    var zeros := Zeros(keys);
    var o := OneHot(names, keys, none);
    OneHotAt(names, keys, none);
    forall k | k in zeros
      ensures zeros[k] == o[k]
    {
      var i :| 0 <= i < |keys| && keys[i] == k;
      assert names[i] != none;
    }
  }

  /** Starting every key at 0 and setting the key at the selected name's
      position to 1 yields the one-hot encoding. */
  lemma OneHotOfSelected(names: seq<string>, keys: seq<string>, none: string, sel: string)
    requires IsDishTable(names, keys, none)
    requires sel in names
    ensures OneHot(names, keys, sel) == Zeros(keys)[keys[IndexOf(names, sel)] := 1]
  {
    var idx := IndexOf(names, sel);
    var m := Zeros(keys)[keys[idx] := 1];
    var o := OneHot(names, keys, sel);
    OneHotAt(names, keys, sel);
    assert m.Keys == o.Keys;
    forall k | k in m
      ensures m[k] == o[k]
    {
      var i :| 0 <= i < |keys| && keys[i] == k;
      if i == idx {
        assert o[k] == 1;
      } else {
        assert keys[i] != keys[idx];
        assert names[i] != sel;
        assert m[k] == 0 == o[k];
      }
    }
  }

  /** The keys whose indicator is set. */
  function SetKeys(m: map<string, int>): set<string> {
    set k | k in m && m[k] == 1
  }

  /** The form's one-hot dish features. */
  function DishOneHot(sel: string): (m: map<string, int>)
  {
    DishTablesWellFormed();
    OneHot(VisibleNames, ModelKeys, sel)
  }

  /** The form's dish features: with a dish selected, the key at that dish's
      position `chaves_modelo[nomes_visiveis.index(sel)]` is 1 and every other
      key is 0; with the placeholder selected every key is 0. */
  lemma DishOneHotSelectsIndex(sel: string)
    requires sel in DishOptions
    ensures DishOneHot(sel).Keys == set k | k in ModelKeys
    ensures sel == NoDish ==> forall k :: k in ModelKeys ==> DishOneHot(sel)[k] == 0
    ensures sel != NoDish ==> sel in VisibleNames && forall k :: k in ModelKeys ==>
      DishOneHot(sel)[k] == if k == ModelKeys[IndexOf(VisibleNames, sel)] then 1 else 0
  {
    DishTablesWellFormed();
    var m := DishOneHot(sel);
    OneHotSetsOneKey(VisibleNames, ModelKeys, NoDish, sel);
    forall k | k in ModelKeys
      ensures m[k] == 1 <==> k in SetKeys(m)
      ensures m[k] == 0 <==> k !in SetKeys(m)
    {
      assert k in m && IsBit(m[k]);
    }
  }

  /** The dish indicators: every model key starts at 0, then the key at the
      selected dish's position is set to 1. */
  method DishIndicators(sel: string) returns (m: map<string, int>)
    requires sel in DishOptions
    ensures m == DishOneHot(sel)
  {
    DishTablesWellFormed();
    m := Zeros(ModelKeys);
    if sel != NoDish {
      var idx := IndexOf(VisibleNames, sel);
      m := m[ModelKeys[idx] := 1];
      OneHotOfSelected(VisibleNames, ModelKeys, NoDish, sel);
    } else {
      OneHotOfPlaceholder(VisibleNames, ModelKeys, NoDish);
    }
  }
}
