# Meal forecast form: decision core

A Streamlit page asks for a forecast date, a vacation checkbox, a holiday
condition, the dish served and the quantities sold on the five previous
business days. It feeds them to a pre-trained XGBoost regressor wrapped so
that predictions are never negative, and shows the predicted number of meals.
This project models the parts of that page that decide something:

- `Calendar`: dates as Python ordinals (`date.toordinal()`, 0001-01-01 is day 1,
  a Monday) with `Weekday(d) == (d + 6) % 7`, which is how CPython computes
  `date.weekday()`. `PreviousBusinessDays` is `dias_uteis_anteriores` as a
  `while` loop over a growing sequence. It is proved equal to the reference
  definition `RecentBusinessDays`, which is built from "the latest business
  day before `d`". `IsLookback` states what the lookback promises: exactly `n`
  days, strictly decreasing, all Monday to Friday, all before the base date,
  and no business day skipped between the oldest of them and the base date.
  `RecentIsLookback` and `LookbackUnique` show that `RecentBusinessDays` is the
  one and only sequence with those properties. The loop's termination measure
  is the number of days still wanted, then the distance to the next business
  day (at most three). `WeekPerFiveDays` shows that once one day is collected,
  every further five collected days cost exactly one week of walking.
  The model keeps the OverflowError that Python's date arithmetic raises below
  0001-01-01. The cursor is decremented once more after the last day is
  kept, so the lookback fails exactly when that last step leaves the range
  (`Horizon(base, n) <= 1`). A negative `n` collects nothing, as `while
  len(days) < n` does.
- `QuantityInputs`: the loop over `enumerate(reversed(dias_anteriores), 1)`.
  The `i`-th input `POLO_QUANTIDADE_i` is labelled with the `i`-th oldest
  lookback day, so the labels are in chronological order.
- `Features`: the holiday radio label becomes three binary flags. The dish
  label becomes a one-hot map over the eight model keys: every key starts at
  0, then the key at the selected dish's position is set to 1.
- `Regressor`: `XGBRegressorPositivo.predict`, that is `np.maximum(preds, 0)`
  over the wrapped model's raw predictions.
- `Forecast`: the feature row `entrada` and the button's gate. A missing dish
  is a validation error, checked first. A holiday or a Saturday or Sunday
  gives a fixed 0. Only the remaining case consults the regressor, which is a
  function parameter. The page computes its five-day lookback before the
  button, so for 0001-01-01 to 0001-01-08 that lookback's OverflowError comes
  first and the button is never reached.

## Model

| member | source | states |
|---|---|---|
| `Calendar.Weekday` | app.py:81 | Python's `weekday()` on an ordinal lies in 0..6 (0 is Monday) |
| `Calendar.IsBusinessDay` | app.py:67 | the test `atual.weekday() < 5`: Monday to Friday, holidays included; that the lookback keeps exactly such days is stated by `RecentIsLookback` and `PreviousBusinessDays` |
| `Calendar.PrevBusinessDay` | app.py:65-69 | the result is a Monday-to-Friday day at most three days before `d`, and no business day lies strictly between it and `d` |
| `Calendar.PreviousBusinessDays` | app.py:62-70 | the loop returns a result exactly when the final cursor step stays at or after 0001-01-01 (otherwise OverflowError); the result equals `RecentBusinessDays(base, max(n, 0))` and meets `IsLookback` |
| `Calendar.RecentIsLookback` | app.py:62-70 | the reference lookback has exactly `n` days, strictly decreasing, all business days before `d`, and contains every business day from its oldest day up to `d` |
| `Calendar.LookbackUnique` | app.py:62-70 | any sequence meeting `IsLookback(d, n, _)` is the reference lookback: these are exactly the `n` most recent business days |
| `Calendar.LengthOfRecent` | app.py:66 | the lookback collects exactly `n` days, none when `n` is 0 |
| `Calendar.HorizonIsOldest` | app.py:66-69 | the oldest collected day is `Horizon(d, n)` |
| `Calendar.RecentSnoc` | app.py:67-68 | collecting one more day appends the latest business day before the current oldest one |
| `Calendar.HorizonMonotone` | app.py:69 | the cursor only moves back: collecting more days never moves the horizon forward |
| `Calendar.HorizonMonotoneInDay` | app.py:65-69 | a later base date never has an earlier horizon |
| `Calendar.RecentAppend` | app.py:64-69 | looking back `n + m` days is looking back `n` days and then `m` more from the horizon |
| `Calendar.HorizonIsBusinessDay` | app.py:67-68 | the oldest collected day (the horizon) is Monday to Friday |
| `Calendar.WeekdayStep` | app.py:69 | stepping back one day steps the weekday back by one, Monday wrapping to Sunday |
| `Calendar.PrevByWeekday` | app.py:65-69 | the latest business day before `x` is `x - 3` when `x` is a Monday, `x - 2` when `x` is a Sunday, else `x - 1` |
| `Calendar.FiveStepsIsOneWeek` | app.py:64-69 | five business days back from a business day is the same weekday one week earlier |
| `Calendar.WeekPerFiveDays` | app.py:64-69 | once a day is collected, each further five collected days cost exactly seven days of walking |
| `Calendar.Reversed` | app.py:136 | `reversed` keeps the length and puts element `|s| - 1 - i` at position `i` |
| `Calendar.ReversedLookbackIsChronological` | app.py:133-136 | the reversed lookback is strictly increasing and ends with the latest business day before the base date |
| `Calendar.Wanted` | app.py:66 | the number of days `while len(dias_uteis) < n` collects: `n` for `n >= 0`, else 0 |
| `Calendar.FiveDaysBeforeMonday` | app.py:133 | for Monday 2024-06-10 the five days are Friday 2024-06-07 back to Monday 2024-06-03 |
| `QuantityInputs.Decimal` | app.py:140 | `str(i)` is a non-empty run of decimal digits, one digit exactly when `i < 10` |
| `QuantityInputs.DecimalInjective` | app.py:140 | distinct numbers print differently |
| `QuantityInputs.QuantityKey` | app.py:140 | every key starts with `POLO_QUANTIDADE_` |
| `QuantityInputs.QuantityKeyInjective` | app.py:140 | distinct input numbers give distinct keys |
| `QuantityInputs.KeysUpToStep` | app.py:136-142 | each new input key is fresh, and the key set grows by exactly that key |
| `QuantityInputs.QuantityFields` | app.py:135-142 | there are exactly the keys `POLO_QUANTIDADE_1..n`; input `i` holds the `i`-th entered quantity and is labelled with the `i`-th oldest lookback day; for a most-recent-first lookback the labels are chronological |
| `Features.HolidayIndicators` | app.py:100-102 | each flag is 0 or 1 and is 1 exactly for its own label; at most one flag is set |
| `Features.NoFlagExactlyForNenhuma` | app.py:94-102 | among the radio labels, all three flags are 0 exactly for 'Nenhuma' |
| `Features.HolidayOptionOf` | app.py:94-102 | decoding flags always yields one of the four radio labels |
| `Features.HolidayFlagsRoundTrip` | app.py:94-102 | the picked radio label can be read back from its flags |
| `Features.DishTablesWellFormed` | app.py:105-119 | eight names and eight keys, no repeats, the placeholder is not a dish name, every key starts with `prato_` |
| `Features.IndexOf` | app.py:128 | `list.index` returns the first position holding the value |
| `Features.OneHotAt` | app.py:125-129 | the one-hot map has exactly the model keys; the key at position `i` is 1 exactly when name `i` is selected |
| `Features.OneHotSetsOneKey` | app.py:125-129 | every value is 0 or 1; no key is set for the placeholder, otherwise exactly the key at the selected name's index is set |
| `Features.Zeros` | app.py:125 | the initial map has every model key, each at 0 |
| `Features.OneHotOfPlaceholder` | app.py:125-127 | with the placeholder selected the map stays all zeros |
| `Features.OneHotOfSelected` | app.py:125-129 | zeros with the selected index's key set to 1 is the one-hot map |
| `Features.DishOneHotSelectsIndex` | app.py:125-129 | with a dish selected, `chaves_modelo[nomes_visiveis.index(sel)]` is 1 and every other key 0; with the placeholder every key is 0 |
| `Features.DishIndicators` | app.py:125-129 | initialising every key to 0 and then setting the selected key yields the one-hot map |
| `Forecast.BaseFeatures` | app.py:152-161 | the dict literal of `entrada` before its updates; its content is stated by `BaseFeaturesAt` |
| `Forecast.FeatureRow` | app.py:152-164 | `entrada` after `update(pratos_input)` and `update(quantidades)`: the union of the three key sets, where a later update wins on a shared key; with disjoint groups (`FeatureRowKeepsEveryGroup`, `FeatureRowKeepsFlags`) every feature survives |
| `Forecast.BaseFeaturesAt` | app.py:152-161 | the base features sit under their eight keys with the vacation and holiday flags as values |
| `Forecast.KeyGroupsDisjoint` | app.py:152-164 | base keys, dish keys and quantity keys never collide |
| `Forecast.MergeKeepsGroups` | app.py:163-164 | `update` with disjoint keys keeps every entry of each group |
| `Forecast.FeatureRowKeepsEveryGroup` | app.py:152-164 | the row has exactly the base, dish and quantity keys and carries the one-hot dish values and the non-negative quantities |
| `Forecast.FeatureRowKeepsFlags` | app.py:152-164 | the row carries the vacation and the three holiday flags unchanged |
| `Forecast.Forecast` | app.py:133-170 | the page's OverflowError exactly when the five-day lookback leaves the range of `date`; otherwise error exactly when no dish is selected, even on holidays and weekends; fixed 0 exactly when a dish is selected and the day is a holiday or a Saturday or Sunday; otherwise the clamped regressor output, which is non-negative |
| `Forecast.LookbackFitsFromNinthDay` | app.py:62-70 | the page's five-day lookback fails exactly for the dates before 0001-01-09 |
| `Forecast.RegressorOnlyConsultedWhenOpen` | app.py:146-168 | outside the prediction case the outcome does not depend on the regressor |
| `Forecast.PredictedRowHasOneDish` | app.py:125-168 | the row the regressor sees has the selected dish's key at 1 and every other dish key at 0 |
| `Forecast.SaturdayExample` | app.py:148-150 | Saturday 2024-06-08 with a dish selected gives the fixed 0 |
| `Regressor.Max` | app.py:21 | `np.maximum` of two numbers is one of them and at least both |
| `Regressor.ClampNonNegative` | app.py:19-21 | the output has the input's length and element `i` is `max(preds[i], 0)`, hence non-negative |
| `Regressor.ClampIdempotent` | app.py:21 | clamping twice is clamping once |
| `Regressor.ClampFixesExactlyNonNegative` | app.py:21 | clamping leaves predictions unchanged exactly when they are all non-negative |
| `Regressor.ClampMonotone` | app.py:21 | clamping preserves the elementwise order of two prediction vectors |
| `Regressor.ClampExample` | app.py:21 | `[-3.2, 4.7]` clamps to `[0.0, 4.7]` |

## Left out

- Streamlit widgets, markdown, the footer HTML and images are UI rendering. The widget values are inputs: the date, the radio and select labels, and the entered quantities.
- `joblib.load` of the model artifact and the XGBoost prediction are I/O and a foreign library. The raw regressor is the function parameter `regressor` of `Forecast`; in `Regressor` its raw predictions are an input sequence.
- `fit`, `get_params` and `set_params` only delegate to XGBoost, so there is nothing of theirs to state.
- The sine/cosine encodings of weekday and month are floating-point trigonometry. They enter `Form` as given reals.
- Floats are modelled as `real`: NaN propagation through `np.maximum` and rounding are not modelled.
- The pandas DataFrame construction is left out; the row is modelled as the dict `entrada`.
- Forecast.Forecast: the predicted quantity is the real clamped value, not the `:.0f` rounded text shown to the user.
- The Portuguese day and month name tables, `strftime` and the label text are static lookups and locale formatting. A quantity input's label is modelled by its date only.
- `st.date_input` limits which dates can be picked. The model accepts any `date` value, from 0001-01-01 to 9999-12-31.
- The lookback treats holidays as ordinary weekdays, as the code does. No holiday logic is added to it.
- Features.DishIndicators and Forecast.Forecast: both require the selected label to be one of the select box's options. With any other label, `list.index` raises ValueError; the select box never produces one.
