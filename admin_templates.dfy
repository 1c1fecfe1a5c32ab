/** The template side of the e-mail group program creator of the admin
    helpers (utils/admin.py): the asset names and the placeholder
    substitution of the form, shared-filter and program templates. The
    registry of created assets the builders fill is in `EmailGroups`.
    Templates are the JSON text of the template files, handled as plain
    strings; the ids the API answers with are given as sequences. */
module AdminTemplates {
  import opened Outcomes
  import opened Text

  // ---------------------------------------------------------------- names

  /** `{g0}-{g1}_FORM`. */
  function FormName(g0: string, g1: string): string
  {
    g0 + "-" + g1 + "_FORM"
  }

  /** `WK{country}_{g0}-{g1}_SUB-FILTER` or `…_UNSUB-FILTER`. */
  function FilterName(country: string, g0: string, g1: string, subscribe: bool): string
  {
    "WK" + country + "_" + g0 + "-" + g1 + (if subscribe then "_SUB-FILTER" else "_UNSUB-FILTER")
  }

  /** The two filters of a group always have different names. */
  lemma FilterNamesDiffer(country: string, g0: string, g1: string)
    ensures FilterName(country, g0, g1, true) != FilterName(country, g0, g1, false)
  {
    var p := "WK" + country + "_" + g0 + "-" + g1;
    assert FilterName(country, g0, g1, true)[|p| + 1] == 'S';
    assert FilterName(country, g0, g1, false)[|p| + 1] == 'U';
  }

  // ---------------------------------------------------------------- substitution chains

  /** A chain of `str.replace` calls, applied left to right: each step
      replaces every occurrence of its placeholder with its value. */
  function Chain(s: string, steps: seq<(string, string)>): string
    requires forall k | 0 <= k < |steps| :: |steps[k].0| > 0
    decreases |steps|
  {
    if |steps| == 0 then s else Chain(Replace(s, steps[0].0, steps[0].1), steps[1..])
  }

  /** The reference meaning of a chain on one template field: a field that
      is a placeholder becomes that placeholder's value, any other field
      stays as it is. */
  function Substitute(f: string, steps: seq<(string, string)>): string
    decreases |steps|
  {
    if |steps| == 0 then f else if f == steps[0].0 then steps[0].1 else Substitute(f, steps[1..])
  }

  /** `v` holds none of the placeholders of `steps`. */
  predicate FreeOf(v: string, steps: seq<(string, string)>)
  {
    forall k | 0 <= k < |steps| :: !Contains(v, steps[k].0)
  }

  predicate IsPlaceholder(f: string, steps: seq<(string, string)>)
  {
    exists k | 0 <= k < |steps| :: steps[k].0 == f
  }

  /** Placeholders are non-empty, free of `"`, and no placeholder holds an
      earlier one. */
  predicate PlaceholdersApart(steps: seq<(string, string)>)
  {
    (forall k | 0 <= k < |steps| :: |steps[k].0| > 0 && '"' !in steps[k].0) &&
    forall i, j | 0 <= i < j < |steps| :: !Contains(steps[j].0, steps[i].0)
  }

  /** No value holds a placeholder that is replaced after it. */
  predicate ValuesFree(steps: seq<(string, string)>)
  {
    forall i, j | 0 <= i < j < |steps| :: !Contains(steps[i].1, steps[j].0)
  }

  /** Text free of every placeholder of a chain passes through unchanged. */
  lemma {:induction false} ChainAbsent(s: string, steps: seq<(string, string)>)
    requires forall k | 0 <= k < |steps| :: |steps[k].0| > 0
    requires FreeOf(s, steps)
    ensures Chain(s, steps) == s
    decreases |steps|
  {
    if |steps| > 0 {
      ReplaceAbsent(s, steps[0].0, steps[0].1);
      assert FreeOf(s, steps[1..]) by {
        forall k | 0 <= k < |steps| - 1 ensures !Contains(s, steps[1..][k].0) {
          assert steps[1..][k] == steps[k + 1];
        }
      }
      ChainAbsent(s, steps[1..]);
    }
  }

  /** On one template field, the chain does what the reference says, as long
      as placeholders and values do not interfere. */
  lemma {:induction false} ChainSubstitutes(f: string, steps: seq<(string, string)>)
    requires PlaceholdersApart(steps) && ValuesFree(steps)
    requires IsPlaceholder(f, steps) || FreeOf(f, steps)
    ensures Chain(f, steps) == Substitute(f, steps)
    decreases |steps|
  {
    if |steps| > 0 {
      var rest := steps[1..];
      assert forall k | 0 <= k < |rest| :: rest[k] == steps[k + 1];
      if f == steps[0].0 {
        ReplaceWhole(f, steps[0].1);
        assert FreeOf(steps[0].1, rest) by {
          forall k | 0 <= k < |rest| ensures !Contains(steps[0].1, rest[k].0) {
            assert rest[k] == steps[k + 1];
          }
        }
        ChainAbsent(steps[0].1, rest);
      } else {
        assert !Contains(f, steps[0].0) by {
          if !FreeOf(f, steps) {
            var j :| 0 <= j < |steps| && steps[j].0 == f;
            assert j > 0;
          }
        }
        ReplaceAbsent(f, steps[0].0, steps[0].1);
        assert PlaceholdersApart(rest) by {
          forall i, j | 0 <= i < j < |rest| ensures !Contains(rest[j].0, rest[i].0) {
            assert rest[j] == steps[j + 1] && rest[i] == steps[i + 1];
          }
        }
        assert ValuesFree(rest) by {
          forall i, j | 0 <= i < j < |rest| ensures !Contains(rest[i].1, rest[j].0) {
            assert rest[j] == steps[j + 1] && rest[i] == steps[i + 1];
          }
        }
        assert IsPlaceholder(f, rest) || FreeOf(f, rest) by {
          if !FreeOf(f, steps) {
            var j :| 0 <= j < |steps| && steps[j].0 == f;
            assert rest[j - 1].0 == f;
          } else {
            forall k | 0 <= k < |rest| ensures !Contains(f, rest[k].0) {
              assert rest[k] == steps[k + 1];
            }
          }
        }
        ChainSubstitutes(f, rest);
      }
    }
  }

  function ChainEach(fields: seq<string>, steps: seq<(string, string)>): (r: seq<string>)
    requires forall k | 0 <= k < |steps| :: |steps[k].0| > 0
    ensures |r| == |fields|
    ensures forall k | 0 <= k < |fields| :: r[k] == Chain(fields[k], steps)
  {
    if |fields| == 0 then [] else [Chain(fields[0], steps)] + ChainEach(fields[1..], steps)
  }

  /** A template is JSON text: its string fields are separated by `"`. Since
      no placeholder holds a `"`, the whole chain acts on every field
      separately. */
  lemma {:induction false} ChainFieldwise(fields: seq<string>, steps: seq<(string, string)>)
    requires forall k | 0 <= k < |steps| :: |steps[k].0| > 0 && '"' !in steps[k].0
    ensures Chain(Join(fields, "\""), steps) == Join(ChainEach(fields, steps), "\"")
    decreases |steps|
  {
    if |steps| > 0 {
      var once := ReplaceEach(fields, steps[0].0, steps[0].1);
      ReplaceJoin(fields, '"', steps[0].0, steps[0].1);
      ChainFieldwise(once, steps[1..]);
      assert ChainEach(once, steps[1..]) == ChainEach(fields, steps);
    } else {
      assert ChainEach(fields, steps) == fields;
    }
  }

  /** The whole template: every field that is a placeholder becomes its
      value and every other field is kept. */
  lemma ChainTemplate(fields: seq<string>, steps: seq<(string, string)>)
    requires PlaceholdersApart(steps) && ValuesFree(steps)
    requires forall k | 0 <= k < |fields| :: IsPlaceholder(fields[k], steps) || FreeOf(fields[k], steps)
    ensures Chain(Join(fields, "\""), steps) == Join(ChainEach(fields, steps), "\"")
    ensures forall k | 0 <= k < |fields| :: ChainEach(fields, steps)[k] == Substitute(fields[k], steps)
  {
    ChainFieldwise(fields, steps);
    forall k | 0 <= k < |fields| ensures ChainEach(fields, steps)[k] == Substitute(fields[k], steps) {
      ChainSubstitutes(fields[k], steps);
    }
  }

  // ---------------------------------------------------------------- the three templates

  /** Form template: HTML_NAME, FORM_NAME, EMAIL_GROUP, GROUP_ID, FOLDER_ID. */
  function FormSteps(g0: string, g1: string, folderId: string): seq<(string, string)>
  {
    [("HTML_NAME", g0), ("FORM_NAME", FormName(g0, g1)), ("EMAIL_GROUP", g0), ("GROUP_ID", g1), ("FOLDER_ID", folderId)]
  }

  function Criterion(subscribe: bool): string
  {
    if subscribe then "SubscriptionCriterion" else "UnsubscriptionCriterion"
  }

  /** Shared-filter template: FILTER_NAME, GROUP_ID, FOLDER_ID, SUB_CRITERION. */
  function FilterSteps(name: string, g1: string, folderId: string, subscribe: bool): seq<(string, string)>
  {
    [("FILTER_NAME", name), ("GROUP_ID", g1), ("FOLDER_ID", folderId), ("SUB_CRITERION", Criterion(subscribe))]
  }

  /** Program-step template of the k-th group (1-based): EMAIL_GROUP,
      COUNTER_PLUS (150k + 100), COUNTER (150k), FILTER_SUB_ID, FILTER_UNSUB_ID. */
  function StepSteps(group: string, counter: nat, subId: string, unsubId: string): seq<(string, string)>
  {
    [("EMAIL_GROUP", group), ("COUNTER_PLUS", Decimal(counter * 150 + 100)), ("COUNTER", Decimal(counter * 150)),
     ("FILTER_SUB_ID", subId), ("FILTER_UNSUB_ID", unsubId)]
  }

  function FillForm(template: string, g0: string, g1: string, folderId: string): string
  {
    Chain(template, FormSteps(g0, g1, folderId))
  }

  function FillFilter(template: string, country: string, g0: string, g1: string, folderId: string, subscribe: bool): string
  {
    Chain(template, FilterSteps(FilterName(country, g0, g1, subscribe), g1, folderId, subscribe))
  }

  function FillSteps(template: string, group: string, counter: nat, subId: string, unsubId: string): string
  {
    Chain(template, StepSteps(group, counter, subId, unsubId))
  }

  lemma FormPlaceholdersApart(g0: string, g1: string, folderId: string)
    ensures PlaceholdersApart(FormSteps(g0, g1, folderId))
  {
    var s := FormSteps(g0, g1, folderId);
    AbsentByChar(s[1].0, s[0].0, 0);   // 'H'
    AbsentByChar(s[2].0, s[0].0, 0);
    AbsentByChar(s[3].0, s[0].0, 0);
    AbsentByChar(s[4].0, s[0].0, 0);
    AbsentByChar(s[2].0, s[1].0, 0);   // 'F'
    AbsentByChar(s[3].0, s[1].0, 0);
    AbsentByChar(s[4].0, s[1].0, 3);   // 'M'
    AbsentWhenLonger(s[3].0, s[2].0);
    AbsentWhenLonger(s[4].0, s[2].0);
    AbsentByChar(s[4].0, s[3].0, 0);   // 'G'
  }

  /** Placeholders given on their own: non-empty, free of `"`, and none
      holds an earlier one. */
  predicate KeysApart(keys: seq<string>)
  {
    (forall k | 0 <= k < |keys| :: |keys[k]| > 0 && '"' !in keys[k]) &&
    forall i, j | 0 <= i < j < |keys| :: !Contains(keys[j], keys[i])
  }

  lemma ApartByKeys(steps: seq<(string, string)>, keys: seq<string>)
    requires |steps| == |keys| && forall k | 0 <= k < |keys| :: steps[k].0 == keys[k]
    requires KeysApart(keys)
    ensures PlaceholdersApart(steps)
  {
  }

  const FilterKeys: seq<string> := ["FILTER_NAME", "GROUP_ID", "FOLDER_ID", "SUB_CRITERION"]

  lemma FilterKeysApart()
    ensures KeysApart(FilterKeys)
  {
    var s := FilterKeys;
    AbsentWhenLonger(s[1], s[0]);
    AbsentWhenLonger(s[2], s[0]);
    AbsentByChar(s[3], s[0], 0);   // 'F'
    AbsentByChar(s[2], s[1], 0);   // 'G'
    AbsentByChar(s[3], s[1], 0);
    AbsentByChar(s[3], s[2], 0);   // 'F'
  }

  lemma FilterPlaceholdersApart(name: string, g1: string, folderId: string, subscribe: bool)
    ensures PlaceholdersApart(FilterSteps(name, g1, folderId, subscribe))
  {
    FilterKeysApart();
    ApartByKeys(FilterSteps(name, g1, folderId, subscribe), FilterKeys);
  }

  /** FILTER_SUB_ID does not occur in FILTER_UNSUB_ID. */
  lemma SubIdNotInUnsubId()
    ensures !Contains("FILTER_UNSUB_ID", "FILTER_SUB_ID")
  {
    var s, p := "FILTER_UNSUB_ID", "FILTER_SUB_ID";
    assert s[7] != p[7] && s[8] != p[8];     // at index 0: 'U' / 'S'
    assert s[1..1 + |p|][0] != p[0];        // at index 1: 'I' / 'F'
    assert s[2..2 + |p|][0] != p[0];        // at index 2: 'L' / 'F'
  }

  lemma StepPlaceholdersApart(group: string, counter: nat, subId: string, unsubId: string)
    ensures PlaceholdersApart(StepSteps(group, counter, subId, unsubId))
  {
    var s := StepSteps(group, counter, subId, unsubId);
    AbsentByChar(s[1].0, s[0].0, 1);   // 'M'
    AbsentByChar(s[2].0, s[0].0, 1);
    AbsentByChar(s[3].0, s[0].0, 1);
    AbsentByChar(s[4].0, s[0].0, 1);
    AbsentWhenLonger(s[2].0, s[1].0);
    AbsentByChar(s[3].0, s[1].0, 0);   // 'C'
    AbsentByChar(s[4].0, s[1].0, 0);
    AbsentByChar(s[3].0, s[2].0, 0);
    AbsentByChar(s[4].0, s[2].0, 0);
    SubIdNotInUnsubId();
  }

  /** The generated values of a program step, the two counters, hold no
      placeholder: they are digits only. */
  lemma StepValuesFree(group: string, counter: nat, subId: string, unsubId: string)
    requires FreeOf(group, StepSteps(group, counter, subId, unsubId)[1..])
    requires !Contains(subId, "FILTER_UNSUB_ID")
    ensures ValuesFree(StepSteps(group, counter, subId, unsubId))
  {
    var s := StepSteps(group, counter, subId, unsubId);
    forall j | 2 <= j < 5 ensures !Contains(s[1].1, s[j].0) && (j > 2 ==> !Contains(s[2].1, s[j].0)) {
      AbsentFromDigits(s[1].1, s[j].0);
      AbsentFromDigits(s[2].1, s[j].0);
    }
    forall j | 1 <= j < 5 ensures !Contains(s[0].1, s[j].0) {
      assert s[1..][j - 1] == s[j];
    }
  }

  /** What a form field becomes: HTML_NAME and EMAIL_GROUP the group's
      first value, FORM_NAME `g0-g1_FORM`, GROUP_ID the group's second
      value, FOLDER_ID the form folder; anything else is kept. */
  function FormValue(f: string, g0: string, g1: string, folderId: string): string
  {
    if f == "HTML_NAME" || f == "EMAIL_GROUP" then g0
    else if f == "FORM_NAME" then FormName(g0, g1)
    else if f == "GROUP_ID" then g1
    else if f == "FOLDER_ID" then folderId
    else f
  }

  /** What a shared-filter field becomes. */
  function FilterValue(f: string, name: string, g1: string, folderId: string, subscribe: bool): string
  {
    if f == "FILTER_NAME" then name
    else if f == "GROUP_ID" then g1
    else if f == "FOLDER_ID" then folderId
    else if f == "SUB_CRITERION" then (if subscribe then "SubscriptionCriterion" else "UnsubscriptionCriterion")
    else f
  }

  /** What a program-step field of the k-th group becomes. */
  function StepValue(f: string, group: string, counter: nat, subId: string, unsubId: string): string
  {
    if f == "EMAIL_GROUP" then group
    else if f == "COUNTER_PLUS" then Decimal(150 * counter + 100)
    else if f == "COUNTER" then Decimal(150 * counter)
    else if f == "FILTER_SUB_ID" then subId
    else if f == "FILTER_UNSUB_ID" then unsubId
    else f
  }

  /** The form template, field by field, is the reference table. */
  lemma FillFormTemplate(fields: seq<string>, g0: string, g1: string, folderId: string)
    requires ValuesFree(FormSteps(g0, g1, folderId))
    requires forall k | 0 <= k < |fields| :: IsPlaceholder(fields[k], FormSteps(g0, g1, folderId)) || FreeOf(fields[k], FormSteps(g0, g1, folderId))
    ensures FillForm(Join(fields, "\""), g0, g1, folderId) == Join(ChainEach(fields, FormSteps(g0, g1, folderId)), "\"")
    ensures forall k | 0 <= k < |fields| :: ChainEach(fields, FormSteps(g0, g1, folderId))[k] == FormValue(fields[k], g0, g1, folderId)
  {
    var steps := FormSteps(g0, g1, folderId);
    FormPlaceholdersApart(g0, g1, folderId);
    ChainTemplate(fields, steps);
    forall k | 0 <= k < |fields| ensures Substitute(fields[k], steps) == FormValue(fields[k], g0, g1, folderId) {
      FormSubstitute(fields[k], g0, g1, folderId);
    }
  }

  lemma FormSubstitute(f: string, g0: string, g1: string, folderId: string)
    ensures Substitute(f, FormSteps(g0, g1, folderId)) == FormValue(f, g0, g1, folderId)
  {
    var s := FormSteps(g0, g1, folderId);
    var s1, s2, s3, s4 := s[1..], s[2..], s[3..], s[4..];
    assert s1[1..] == s2 && s2[1..] == s3 && s3[1..] == s4 && s4[1..] == [];
    assert Substitute(f, s4) == (if f == "FOLDER_ID" then folderId else f);
    assert Substitute(f, s3) == (if f == "GROUP_ID" then g1 else Substitute(f, s4));
    assert Substitute(f, s2) == (if f == "EMAIL_GROUP" then g0 else Substitute(f, s3));
    assert Substitute(f, s1) == (if f == "FORM_NAME" then FormName(g0, g1) else Substitute(f, s2));
  }

  /** The filter template, field by field, is the reference table. */
  lemma FillFilterTemplate(fields: seq<string>, country: string, g0: string, g1: string, folderId: string, subscribe: bool)
    requires ValuesFree(FilterSteps(FilterName(country, g0, g1, subscribe), g1, folderId, subscribe))
    requires forall k | 0 <= k < |fields| ::
      IsPlaceholder(fields[k], FilterSteps(FilterName(country, g0, g1, subscribe), g1, folderId, subscribe)) ||
      FreeOf(fields[k], FilterSteps(FilterName(country, g0, g1, subscribe), g1, folderId, subscribe))
    ensures FillFilter(Join(fields, "\""), country, g0, g1, folderId, subscribe) ==
      Join(ChainEach(fields, FilterSteps(FilterName(country, g0, g1, subscribe), g1, folderId, subscribe)), "\"")
    ensures forall k | 0 <= k < |fields| ::
      ChainEach(fields, FilterSteps(FilterName(country, g0, g1, subscribe), g1, folderId, subscribe))[k] ==
      FilterValue(fields[k], FilterName(country, g0, g1, subscribe), g1, folderId, subscribe)
  {
    var name := FilterName(country, g0, g1, subscribe);
    var steps := FilterSteps(name, g1, folderId, subscribe);
    FilterPlaceholdersApart(name, g1, folderId, subscribe);
    ChainTemplate(fields, steps);
    forall k | 0 <= k < |fields| ensures Substitute(fields[k], steps) == FilterValue(fields[k], name, g1, folderId, subscribe) {
      FilterSubstitute(fields[k], name, g1, folderId, subscribe);
    }
  }

  lemma FilterSubstitute(f: string, name: string, g1: string, folderId: string, subscribe: bool)
    ensures Substitute(f, FilterSteps(name, g1, folderId, subscribe)) == FilterValue(f, name, g1, folderId, subscribe)
  {
    var s := FilterSteps(name, g1, folderId, subscribe);
    var s1, s2, s3 := s[1..], s[2..], s[3..];
    assert s1[1..] == s2 && s2[1..] == s3 && s3[1..] == [];
    assert Substitute(f, s3) == (if f == "SUB_CRITERION" then Criterion(subscribe) else f);
    assert Substitute(f, s2) == (if f == "FOLDER_ID" then folderId else Substitute(f, s3));
    assert Substitute(f, s1) == (if f == "GROUP_ID" then g1 else Substitute(f, s2));
  }

  /** The program-step template of the k-th group, field by field, is the
      reference table. Only the group name and the filter ids need to be
      free of placeholders; the counters are digits. */
  lemma FillStepsTemplate(fields: seq<string>, group: string, counter: nat, subId: string, unsubId: string)
    requires FreeOf(group, StepSteps(group, counter, subId, unsubId)[1..])
    requires !Contains(subId, "FILTER_UNSUB_ID")
    requires forall k | 0 <= k < |fields| ::
      IsPlaceholder(fields[k], StepSteps(group, counter, subId, unsubId)) ||
      FreeOf(fields[k], StepSteps(group, counter, subId, unsubId))
    ensures FillSteps(Join(fields, "\""), group, counter, subId, unsubId) ==
      Join(ChainEach(fields, StepSteps(group, counter, subId, unsubId)), "\"")
    ensures forall k | 0 <= k < |fields| ::
      ChainEach(fields, StepSteps(group, counter, subId, unsubId))[k] == StepValue(fields[k], group, counter, subId, unsubId)
  {
    var s := StepSteps(group, counter, subId, unsubId);
    StepPlaceholdersApart(group, counter, subId, unsubId);
    StepValuesFree(group, counter, subId, unsubId);
    ChainTemplate(fields, s);
    forall k | 0 <= k < |fields| ensures Substitute(fields[k], s) == StepValue(fields[k], group, counter, subId, unsubId) {
      StepSubstitute(fields[k], group, counter, subId, unsubId);
    }
  }

  lemma StepSubstitute(f: string, group: string, counter: nat, subId: string, unsubId: string)
    ensures Substitute(f, StepSteps(group, counter, subId, unsubId)) == StepValue(f, group, counter, subId, unsubId)
  {
    var s := StepSteps(group, counter, subId, unsubId);
    var s1, s2, s3, s4 := s[1..], s[2..], s[3..], s[4..];
    assert s1[1..] == s2 && s2[1..] == s3 && s3[1..] == s4 && s4[1..] == [];
    assert Substitute(f, s4) == (if f == "FILTER_UNSUB_ID" then unsubId else f);
    assert Substitute(f, s3) == (if f == "FILTER_SUB_ID" then subId else Substitute(f, s4));
    assert Substitute(f, s2) == (if f == "COUNTER" then Decimal(150 * counter) else Substitute(f, s3));
    assert Substitute(f, s1) == (if f == "COUNTER_PLUS" then Decimal(150 * counter + 100) else Substitute(f, s2));
  }

  /** Why COUNTER_PLUS must be replaced first: the other order turns the
      field COUNTER_PLUS into 150k followed by `_PLUS`. */
  lemma CounterOrderMatters(counter: nat)
    ensures var plus, base := Decimal(counter * 150 + 100), Decimal(counter * 150);
      Chain("COUNTER_PLUS", [("COUNTER", base), ("COUNTER_PLUS", plus)]) == base + "_PLUS"
  {
    var plus, base := Decimal(counter * 150 + 100), Decimal(counter * 150);
    var f := "COUNTER_PLUS";
    var steps := [("COUNTER", base), ("COUNTER_PLUS", plus)];
    assert f[..7] == "COUNTER" && f[7..] == "_PLUS";
    ReplaceHit(f, "COUNTER", base);
    ReplaceShort("_PLUS", "COUNTER", base);
    var once := base + "_PLUS";
    assert Replace(f, "COUNTER", base) == once;
    assert 'C' !in once;
    AbsentByChar(once, "COUNTER_PLUS", 0);
    ReplaceAbsent(once, "COUNTER_PLUS", plus);
    assert steps[1..] == [("COUNTER_PLUS", plus)];
    assert Chain(once, steps[1..]) == Chain(once, []);
    assert Chain(f, steps) == Chain(once, steps[1..]);
  }
}
