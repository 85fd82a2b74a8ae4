/** The forecast button: the feature row handed to the regressor, and the
    gate that decides between a validation error, a fixed zero and a call to
    the regressor. */
module Forecast {
  import opened Calendar
  import opened QuantityInputs
  import opened Features
  import opened Regressor

  /** The sine/cosine encodings of the weekday and the month. They are
      floating-point trigonometry and arrive as given values. */
  datatype CyclicFeatures = CyclicFeatures(weekdaySin: real, weekdayCos: real, monthSin: real, monthCos: real)

  /** The keys of `entrada` before the dish and quantity features are merged in. */
  const BaseKeys: seq<string> := [
    "É_FÉRIAS", "FERIADO", "PRÉ_FERIADO", "PÓS_FERIADO",
    "DIA_SEM_SIN", "DIA_SEM_COS", "MES_SIN", "MES_COS"]

  function AsReals(m: map<string, int>): (r: map<string, real>)
    ensures r.Keys == m.Keys
    ensures forall k :: k in m ==> r[k] == m[k] as real
  {
    map k | k in m :: m[k] as real
  }

  /** The holiday, vacation and cyclic features. */
  function BaseFeatures(vacation: bool, flags: HolidayFlags, cyclic: CyclicFeatures): map<string, real> {
    map[
      "É_FÉRIAS" := if vacation then 1.0 else 0.0,
      "FERIADO" := flags.holiday as real,
      "PRÉ_FERIADO" := flags.preHoliday as real,
      "PÓS_FERIADO" := flags.postHoliday as real,
      "DIA_SEM_SIN" := cyclic.weekdaySin,
      "DIA_SEM_COS" := cyclic.weekdayCos,
      "MES_SIN" := cyclic.monthSin,
      "MES_COS" := cyclic.monthCos]
  }

  /** The row `entrada`: the base features, then `update(pratos_input)`, then
      `update(quantidades)`; a later update wins on a shared key. */
  function FeatureRow(vacation: bool, flags: HolidayFlags, cyclic: CyclicFeatures,
                      dishes: map<string, int>, quantities: map<string, nat>): (row: map<string, real>)
    ensures row.Keys == BaseFeatures(vacation, flags, cyclic).Keys + dishes.Keys + quantities.Keys
    ensures forall k :: k in quantities ==> row[k] == quantities[k] as real
    ensures forall k :: k in dishes && k !in quantities ==> row[k] == dishes[k] as real
    ensures forall k :: k in BaseFeatures(vacation, flags, cyclic) && k !in dishes && k !in quantities ==>
      row[k] == BaseFeatures(vacation, flags, cyclic)[k]
  {
    BaseFeatures(vacation, flags, cyclic) + AsReals(dishes) + AsReals(quantities)
  }

  /** The base features sit under the base keys. */
  lemma BaseFeaturesAt(vacation: bool, flags: HolidayFlags, cyclic: CyclicFeatures)
    ensures var base := BaseFeatures(vacation, flags, cyclic);
      && base.Keys == set k | k in BaseKeys
      && "É_FÉRIAS" in base && "FERIADO" in base && "PRÉ_FERIADO" in base && "PÓS_FERIADO" in base
      && base["É_FÉRIAS"] == (if vacation then 1.0 else 0.0)
      && base["FERIADO"] == flags.holiday as real
      && base["PRÉ_FERIADO"] == flags.preHoliday as real
      && base["PÓS_FERIADO"] == flags.postHoliday as real
  {
  }

  /** The three groups of keys never collide, so no update overwrites an
      earlier feature. */
  lemma KeyGroupsDisjoint(n: nat)
    ensures (set k | k in BaseKeys) !! (set k | k in ModelKeys)
    ensures (set k | k in BaseKeys) !! KeysUpTo(n)
    ensures (set k | k in ModelKeys) !! KeysUpTo(n)
  {
    DishTablesWellFormed();
    forall i: nat
      ensures QuantityKey(i) !in BaseKeys && QuantityKey(i) !in ModelKeys
    {
      var q := QuantityKey(i);
      assert q[0] == 'P';
      assert forall k :: k in BaseKeys ==> |k| < |q|;
      assert forall k :: k in ModelKeys ==> k[0] == 'p';
    }
  }

  /** Merging the dish and quantity features into a base whose keys they do
      not share keeps every feature of each group. */
  lemma MergeKeepsGroups(base: map<string, real>, dishes: map<string, int>, quantities: map<string, nat>)
    requires base.Keys !! dishes.Keys && base.Keys !! quantities.Keys && dishes.Keys !! quantities.Keys
    ensures var row := base + AsReals(dishes) + AsReals(quantities);
      && row.Keys == base.Keys + dishes.Keys + quantities.Keys
      && (forall k :: k in base ==> row[k] == base[k])
      && (forall k :: k in dishes ==> row[k] == dishes[k] as real)
      && (forall k :: k in quantities ==> row[k] == quantities[k] as real && row[k] >= 0.0)
  {
  }

  /** The row handed to the regressor has exactly the base, dish and quantity
      keys, and keeps the one-hot dish indicators and the entered quantities. */
  lemma FeatureRowKeepsEveryGroup(vacation: bool, flags: HolidayFlags, cyclic: CyclicFeatures,
                                  sel: string, quantities: map<string, nat>, n: nat)
    requires sel in DishOptions
    requires quantities.Keys == KeysUpTo(n)
    ensures var row := FeatureRow(vacation, flags, cyclic, DishOneHot(sel), quantities);
      && row.Keys == (set k | k in BaseKeys) + (set k | k in ModelKeys) + KeysUpTo(n)
      && (forall k :: k in ModelKeys ==> row[k] == DishOneHot(sel)[k] as real)
      && (forall k :: k in quantities ==> row[k] == quantities[k] as real && row[k] >= 0.0)
  {
    DishTablesWellFormed();
    KeyGroupsDisjoint(n);
    OneHotAt(VisibleNames, ModelKeys, sel);
    BaseFeaturesAt(vacation, flags, cyclic);
    var base, dishes := BaseFeatures(vacation, flags, cyclic), DishOneHot(sel);
    MergeKeepsGroups(base, dishes, quantities);
    var row := FeatureRow(vacation, flags, cyclic, dishes, quantities);
    assert row.Keys == base.Keys + dishes.Keys + quantities.Keys;
    assert base.Keys == set k | k in BaseKeys;
    assert dishes.Keys == set k | k in ModelKeys;
  }

  /** No dish or quantity feature overwrites a holiday or vacation flag. */
  lemma FeatureRowKeepsFlags(vacation: bool, flags: HolidayFlags, cyclic: CyclicFeatures,
                             sel: string, quantities: map<string, nat>, n: nat)
    requires sel in DishOptions
    requires quantities.Keys == KeysUpTo(n)
    ensures var row := FeatureRow(vacation, flags, cyclic, DishOneHot(sel), quantities);
      && row["FERIADO"] == flags.holiday as real
      && row["PRÉ_FERIADO"] == flags.preHoliday as real
      && row["PÓS_FERIADO"] == flags.postHoliday as real
      && row["É_FÉRIAS"] == (if vacation then 1.0 else 0.0)
  {
    DishTablesWellFormed();
    KeyGroupsDisjoint(n);
    OneHotAt(VisibleNames, ModelKeys, sel);
    BaseFeaturesAt(vacation, flags, cyclic);
    var base, dishes := BaseFeatures(vacation, flags, cyclic), DishOneHot(sel);
    MergeKeepsGroups(base, dishes, quantities);
    var row := FeatureRow(vacation, flags, cyclic, dishes, quantities);
    assert base.Keys !! dishes.Keys;
  }

  /** The form calls the lookback with its default count. */
  const LookbackDays: nat := 5

  /** What the form holds when the button is pressed. */
  datatype Form = Form(
    date: Date,
    vacation: bool,
    holidayOption: string,
    dish: string,
    cyclic: CyclicFeatures,
    quantities: map<string, nat>)

  /** The outcomes of pressing the button. `LookbackOverflow` is the
      OverflowError the page raises while computing the five previous business
      days, before the button is reached. Only `Predicted` carries a value
      computed by the regressor. */
  datatype Outcome = LookbackOverflow | MissingDish | NoSales | Predicted(quantity: real)

  /** Whether the page's lookback of `LookbackDays` days before `date` stays
      within the range of `date`, as `PreviousBusinessDays` decides. */
  predicate LookbackFits(date: Date) {
    Horizon(date, LookbackDays) > MinOrdinal
  }

  /** The row the form hands to the regressor. */
  function InputRow(form: Form): map<string, real> {
    FeatureRow(form.vacation, HolidayIndicators(form.holidayOption), form.cyclic,
               DishOneHot(form.dish), form.quantities)
  }

  /** The forecast button's handler, after the page has computed its
      lookback: a missing dish is rejected first, even on a holiday or a
      weekend; then a holiday or a Saturday or Sunday gives 0; only otherwise
      is the wrapped regressor consulted, its output floored at zero. The
      wrapped XGBoost model is the opaque `regressor`. Pre- and post-holidays
      do not close the kitchen. A date whose lookback leaves the range of
      `date` stops the page before the button is reached. */
  function Forecast(form: Form, regressor: map<string, real> -> real): (o: Outcome)
    requires form.dish in DishOptions
    ensures o.LookbackOverflow? <==> !LookbackFits(form.date)
    ensures o.MissingDish? <==> LookbackFits(form.date) && form.dish == NoDish
    ensures o.NoSales? <==> (LookbackFits(form.date) && form.dish != NoDish &&
                             (form.holidayOption == HolidayLabel || !IsBusinessDay(form.date)))
    ensures o.Predicted? <==> (LookbackFits(form.date) && form.dish != NoDish &&
                               form.holidayOption != HolidayLabel && IsBusinessDay(form.date))
    ensures o.Predicted? ==> o.quantity >= 0.0 && o.quantity == Max(regressor(InputRow(form)), 0.0)
  {
    var feriado := HolidayIndicators(form.holidayOption).holiday;
    var diaSemana := Weekday(form.date);
    if !LookbackFits(form.date) then LookbackOverflow
    else if form.dish == NoDish then MissingDish
    else if feriado == 1 || diaSemana in [5, 6] then NoSales
    else Predicted(ClampNonNegative([regressor(InputRow(form))])[0])
  }

  /** Outside the `Predicted` case the regressor is never consulted: any two
      regressors give the same outcome. */
  lemma RegressorOnlyConsultedWhenOpen(form: Form, r1: map<string, real> -> real, r2: map<string, real> -> real)
    requires form.dish in DishOptions
    requires !Forecast(form, r1).Predicted?
    ensures Forecast(form, r1) == Forecast(form, r2)
  {
  }

  /** When the regressor is consulted a dish was selected, so the row it
      sees has that dish's key at 1 and every other dish key at 0. */
  lemma PredictedRowHasOneDish(form: Form, regressor: map<string, real> -> real)
    requires form.dish in DishOptions
    requires Forecast(form, regressor).Predicted?
    requires form.quantities.Keys == KeysUpTo(LookbackDays)
    ensures form.dish in VisibleNames
    ensures forall k :: k in ModelKeys ==>
      InputRow(form)[k] == if k == ModelKeys[IndexOf(VisibleNames, form.dish)] then 1.0 else 0.0
  {
    assert form.dish != NoDish;
    DishOneHotSelectsIndex(form.dish);
    FeatureRowKeepsEveryGroup(form.vacation, HolidayIndicators(form.holidayOption), form.cyclic,
                              form.dish, form.quantities, LookbackDays);
  }

  /** The page's lookback fails exactly for the first eight days of the
      calendar: 0001-01-08 is a Monday whose five previous business days reach
      back to 0001-01-01, so the cursor's final step leaves the range. */
  lemma LookbackFitsFromNinthDay(d: Date)
    ensures LookbackFits(d) <==> d >= 9
  {
    assert Horizon(8, LookbackDays) == MinOrdinal;
    assert Horizon(9, LookbackDays) == MinOrdinal + 1;
    if d >= 9 {
      HorizonMonotoneInDay(9, d, LookbackDays);
    } else {
      HorizonMonotoneInDay(d, 8, LookbackDays);
    }
  }

  /** 2024-06-08 is a Saturday: with a dish selected, the forecast is 0. */
  lemma SaturdayExample(regressor: map<string, real> -> real)
    ensures Forecast(Form(739045, false, NoHolidayLabel, "Misto", CyclicFeatures(0.0, 0.0, 0.0, 0.0), map[]), regressor) == NoSales
  {
    assert Weekday(739045) == 5;
    LookbackFitsFromNinthDay(739045);
  }
}
