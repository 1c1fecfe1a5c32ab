/** The form processing reporter (`form_data` in utils/admin.py): it pages
    through every form matching a search, keeps each form's checkbox fields
    and its subscription-type processing steps, flags whether the form runs
    a shared source-country update rule and a shared contact update trigger,
    and lists the forms that need a fix. The form listing is a sequence of
    responses; the two rule-set id lists of the naming configuration and
    the text of the completed-campaign list are parameters. */
module FormReport {
  import opened Outcomes
  import opened Text
  import Paging

  /** Forms are requested 50 to a page. */
  const FormPageSize: nat := 50

  // ---------------------------------------------------------------- query

  /** The search query: what was typed, else the clipboard, else `*`. */
  function SearchQuery(typed: string, clipboard: string): (q: string)
    ensures q != ""
    ensures typed != "" ==> q == typed
    ensures typed == "" ==> q == (if clipboard != "" then clipboard else "*")
  {
    if typed != "" then typed else if clipboard != "" then clipboard else "*"
  }

  // ---------------------------------------------------------------- data model

  /** A form element: its `type`, its `displayType`, its other attributes,
      and the sub-fields or progressive-profiling stages of a group. */
  datatype Field = Field(kind: string, displayType: string, data: map<string, string>, fields: seq<Field>, stages: seq<Stage>)

  datatype Stage = Stage(fields: seq<Field>)

  /** What is kept of a checkbox field; a missing attribute is `None`. */
  datatype FieldRecord = FieldRecord(id: Option<string>, name: Option<string>, htmlName: Option<string>,
                                     fieldMergeId: Option<string>, optionListId: Option<string>,
                                     emailGroup: Option<string>, globalSubscription: Option<string>)

  /** The shared contact update rule set a create/update step runs. */
  datatype RuleSet = RuleSet(id: Option<string>, name: Option<string>)

  /** A `{valueType, formFieldId}` pair of a subscription step. */
  datatype ValueRef = ValueRef(valueType: Option<string>, formFieldId: Option<string>)

  /** A form processing step. */
  datatype Step = Step(kind: string, ruleSet: Option<RuleSet>, execute: Option<string>, condition: Option<string>,
                       emailGroupId: Option<ValueRef>, isSubscribing: Option<ValueRef>)

  /** What is kept of a subscription-type step; `None` for a pair stands for
      the empty string the source stores when a key is missing. */
  datatype StepRecord = StepRecord(kind: string, execute: Option<string>, condition: Option<string>,
                                   emailGroup: Option<(string, string)>, isSubscribing: Option<(string, string)>)

  /** An entry of the source-country trigger list: a rule name, or the
      `False` the source appends when the rule set cannot be read. */
  datatype Trigger = RuleName(name: string) | Unreadable

  /** A form of the listing. */
  datatype Form = Form(id: string, name: string, htmlName: string, createdAt: string,
                       elements: seq<Field>, processingSteps: seq<Step>)

  /** `sharedSourceCountryUpdate`: the non-empty list of rule names, or `False`. */
  datatype SourceUpdate = Rules(names: seq<string>) | NoRule

  /** A value of `forms_dict`. */
  datatype FormSummary = FormSummary(id: string, name: string, createdAt: string, htmlName: string,
                                     formFields: seq<FieldRecord>, steps: seq<StepRecord>,
                                     sourceUpdate: SourceUpdate, contactTrigger: bool)

  // ---------------------------------------------------------------- the form listing

  /** The page loop over the form listing, 50 forms a page. */
  method CollectForms(pages: seq<Paging.Page<Form>>) returns (forms: Option<seq<Form>>, requested: seq<nat>)
    ensures forms == (match Paging.Collected(pages, FormPageSize) case None => None case Some(c) => Some(c.0))
    ensures requested == Paging.Requested(pages, FormPageSize)
  {
    var r;
    r, requested := Paging.Collect(pages, FormPageSize);
    forms := match r case None => None case Some(c) => Some(c.0);
  }

  /** A server that returns the forms 50 at a time with their true total
      yields every form, in order, after ⌊n/50⌋ + 1 requests. */
  lemma CollectFormsFromHonestServer(all: seq<Form>, n: nat)
    requires |all| / FormPageSize < n
    ensures Paging.Collected(Paging.HonestPages(all, FormPageSize, n), FormPageSize) == Some((all, |all|))
    ensures Paging.Requested(Paging.HonestPages(all, FormPageSize, n), FormPageSize) == Paging.PageNumbers(|all| / FormPageSize + 1)
  {
    Paging.HonestCollect(all, FormPageSize, n);
  }

  // ---------------------------------------------------------------- checkbox fields

  predicate IsGroup(f: Field)
  {
    f.kind == "FormFieldGroup" || f.kind == "ProgressiveProfile"
  }

  predicate IsCheckbox(f: Field)
  {
    f.displayType == "checkbox"
  }

  function Lookup(data: map<string, string>, key: string): Option<string>
  {
    if key in data then Some(data[key]) else None
  }

  /** `append_form_fields`: the seven attributes kept of a field. */
  function Record(f: Field): FieldRecord
  {
    FieldRecord(Lookup(f.data, "id"), Lookup(f.data, "name"), Lookup(f.data, "htmlName"), Lookup(f.data, "fieldMergeId"),
                Lookup(f.data, "optionListId"), Lookup(f.data, "emailGroupId"), Lookup(f.data, "useGlobalSubscriptionStatus"))
  }

  /** The checkbox fields among the first j of `fs`, in order. */
  function Checkboxes(fs: seq<Field>, j: nat): seq<Field>
    requires j <= |fs|
  {
    if j == 0 then [] else Checkboxes(fs, j - 1) + (if IsCheckbox(fs[j - 1]) then [fs[j - 1]] else [])
  }

  /** The checkbox fields of the first j stages, stage by stage. */
  function StageCheckboxes(stages: seq<Stage>, j: nat): seq<Field>
    requires j <= |stages|
  {
    if j == 0 then [] else StageCheckboxes(stages, j - 1) + Checkboxes(stages[j - 1].fields, |stages[j - 1].fields|)
  }

  /** The fields one top-level element contributes: a group contributes the
      checkboxes among its fields when it has any fields, else those of its
      stages; any other element contributes itself when it is a checkbox. */
  function Contributed(f: Field): seq<Field>
  {
    if IsGroup(f) then
      if |f.fields| > 0 then Checkboxes(f.fields, |f.fields|) else StageCheckboxes(f.stages, |f.stages|)
    else if IsCheckbox(f) then [f]
    else []
  }

  /** The contribution of each top-level element. */
  function Contributions(elements: seq<Field>): (r: seq<seq<Field>>)
    ensures |r| == |elements|
  {
    seq(|elements|, i requires 0 <= i < |elements| => Contributed(elements[i]))
  }

  lemma ContributionsAt(elements: seq<Field>, i: nat)
    requires i < |elements|
    ensures Contributions(elements)[i] == Contributed(elements[i])
  {
  }

  /** The first j parts, one after the other. */
  function Concat<T>(parts: seq<seq<T>>, j: nat): seq<T>
    requires j <= |parts|
  {
    if j == 0 then [] else Concat(parts, j - 1) + parts[j - 1]
  }

  lemma {:induction false} ConcatMembers<T>(parts: seq<seq<T>>, j: nat, x: T)
    requires j <= |parts|
    ensures x in Concat(parts, j) <==> exists i | 0 <= i < j :: x in parts[i]
    decreases j
  {
    if j > 0 {
      ConcatMembers(parts, j - 1, x);
    }
  }

  /** The fields collected from a form's elements, in order. */
  function Extracted(elements: seq<Field>): seq<Field>
  {
    Concat(Contributions(elements), |elements|)
  }

  function Records(fs: seq<Field>): (r: seq<FieldRecord>)
    ensures |r| == |fs|
  {
    seq(|fs|, i requires 0 <= i < |fs| => Record(fs[i]))
  }

  lemma RecordsAppend(a: seq<Field>, b: seq<Field>)
    ensures Records(a + b) == Records(a) + Records(b)
  {
    var ab, ra, rb := Records(a + b), Records(a), Records(b);
    forall i | 0 <= i < |a + b| ensures ab[i] == (ra + rb)[i] {
      if i < |a| {
        assert ab[i] == Record(a[i]) == ra[i];
      } else {
        assert ab[i] == Record(b[i - |a|]) == rb[i - |a|];
      }
    }
  }

  lemma {:induction false} CheckboxesMembers(fs: seq<Field>, j: nat, x: Field)
    requires j <= |fs|
    ensures x in Checkboxes(fs, j) <==> IsCheckbox(x) && x in fs[..j]
    decreases j
  {
    if j > 0 {
      CheckboxesMembers(fs, j - 1, x);
      assert fs[..j] == fs[..j - 1] + [fs[j - 1]];
    }
  }

  lemma {:induction false} StageCheckboxesMembers(stages: seq<Stage>, j: nat, x: Field)
    requires j <= |stages|
    ensures x in StageCheckboxes(stages, j) <==> IsCheckbox(x) && exists k | 0 <= k < j :: x in stages[k].fields
    decreases j
  {
    if j > 0 {
      StageCheckboxesMembers(stages, j - 1, x);
      var last := stages[j - 1].fields;
      CheckboxesMembers(last, |last|, x);
      assert last[..|last|] == last;
    }
  }

  /** Where a collected field comes from: a top-level element that is not a
      group is collected exactly when it is a checkbox; a group is never
      collected itself, only the checkboxes among its fields, or, when it has
      no fields, among the fields of its stages. */
  lemma ContributedMembers(f: Field, x: Field)
    ensures x in Contributed(f) <==>
      (!IsGroup(f) && IsCheckbox(f) && x == f) ||
      (IsGroup(f) && |f.fields| > 0 && IsCheckbox(x) && x in f.fields) ||
      (IsGroup(f) && |f.fields| == 0 && IsCheckbox(x) && exists k | 0 <= k < |f.stages| :: x in f.stages[k].fields)
  {
    if IsGroup(f) {
      CheckboxesMembers(f.fields, |f.fields|, x);
      assert f.fields[..|f.fields|] == f.fields;
      StageCheckboxesMembers(f.stages, |f.stages|, x);
    }
  }

  /** The collected fields are exactly the contributions of the elements. */
  lemma ExtractedMembers(elements: seq<Field>, x: Field)
    ensures x in Extracted(elements) <==> exists i | 0 <= i < |elements| :: x in Contributed(elements[i])
  {
    ConcatMembers(Contributions(elements), |elements|, x);
    forall i | 0 <= i < |elements| {
      ContributionsAt(elements, i);
    }
  }

  /** Every collected field is a checkbox. */
  lemma ExtractedAreCheckboxes(elements: seq<Field>)
    ensures forall x | x in Extracted(elements) :: IsCheckbox(x)
  {
    forall x | x in Extracted(elements) ensures IsCheckbox(x) {
      ExtractedMembers(elements, x);
      var i :| 0 <= i < |elements| && x in Contributed(elements[i]);
      ContributedMembers(elements[i], x);
    }
  }

  /** The `form_fields` loop: the records of the collected fields, in order. */
  method ExtractFields(elements: seq<Field>) returns (formFields: seq<FieldRecord>)
    ensures formFields == Records(Extracted(elements))
  {
    ghost var parts := Contributions(elements);
    formFields := [];
    for i := 0 to |elements|
      invariant formFields == Records(Concat(parts, i))
    {
      var records := ElementRecords(elements, i);
      RecordsAppend(Concat(parts, i), parts[i]);
      formFields := formFields + records;
    }
  }

  /** The records element i adds, as a part of the collected fields. */
  method ElementRecords(elements: seq<Field>, i: nat) returns (records: seq<FieldRecord>)
    requires i < |elements|
    ensures records == Records(Contributions(elements)[i])
  {
    records := ContributedRecords(elements[i]);
    ContributionsAt(elements, i);
  }

  /** The records one top-level element adds. */
  method ContributedRecords(field: Field) returns (records: seq<FieldRecord>)
    ensures records == Records(Contributed(field))
  {
    records := [];
    if IsGroup(field) {
      if |field.fields| > 0 {
        records := CheckboxRecords(field.fields);
      } else if |field.stages| > 0 {
        for k := 0 to |field.stages|
          invariant records == Records(StageCheckboxes(field.stages, k))
        {
          var sub := CheckboxRecords(field.stages[k].fields);
          RecordsAppend(StageCheckboxes(field.stages, k), Checkboxes(field.stages[k].fields, |field.stages[k].fields|));
          records := records + sub;
        }
      }
    } else if IsCheckbox(field) {
      records := [Record(field)];
    }
  }

  /** The inner loop over a group's (or a stage's) fields. */
  method CheckboxRecords(fs: seq<Field>) returns (records: seq<FieldRecord>)
    ensures records == Records(Checkboxes(fs, |fs|))
  {
    records := [];
    for k := 0 to |fs|
      invariant records == Records(Checkboxes(fs, k))
    {
      if IsCheckbox(fs[k]) {
        RecordsAppend(Checkboxes(fs, k), [fs[k]]);
        records := records + [Record(fs[k])];
      }
    }
  }

  // ---------------------------------------------------------------- processing steps

  const CreateUpdateStep := "FormStepCreateUpdateContact"

  predicate IsSubscriptionStep(s: Step)
  {
    s.kind == "FormStepGroupSubscription" || s.kind == "FormStepGlobalUnsubscribe" || s.kind == "FormStepGlobalSubscribe"
  }

  function Pair(v: Option<ValueRef>): Option<(string, string)>
  {
    match v
    case Some(ValueRef(Some(a), Some(b))) => Some((a, b))
    case _ => None
  }

  /** What is kept of a subscription-type step: the condition only when the
      step executes conditionally, the empty string otherwise. */
  function StepRecordOf(s: Step): (r: StepRecord)
    ensures r.kind == s.kind && r.execute == s.execute
    ensures s.execute == Some("conditional") ==> r.condition == s.condition
    ensures s.execute != Some("conditional") ==> r.condition == Some("")
  {
    StepRecord(s.kind, s.execute, if s.execute == Some("conditional") then s.condition else Some(""),
               Pair(s.emailGroupId), Pair(s.isSubscribing))
  }

  /** The entries a step adds to the source-country trigger list. A rule
      set, id or name that cannot be read is a `KeyError`, which adds `False`. */
  function SourceEntries(s: Step, sourceIds: seq<string>): seq<Trigger>
  {
    if s.kind != CreateUpdateStep then []
    else match s.ruleSet
      case None => [Unreadable]
      case Some(rs) =>
        match rs.id
        case None => [Unreadable]
        case Some(id) =>
          if id in sourceIds then (match rs.name case None => [Unreadable] case Some(n) => [RuleName(n)])
          else []
  }

  /** The entries a step adds to the contact update trigger list. */
  function ContactEntries(s: Step, sourceIds: seq<string>, contactIds: seq<string>): seq<bool>
  {
    if s.kind != CreateUpdateStep then []
    else match s.ruleSet
      case None => [false]
      case Some(rs) =>
        match rs.id
        case None => [false]
        case Some(id) =>
          if id in sourceIds then (if rs.name.None? then [false] else [])
          else if id in contactIds then [true]
          else []
  }

  function StepRecords(steps: seq<Step>, j: nat): seq<StepRecord>
    requires j <= |steps|
  {
    if j == 0 then [] else StepRecords(steps, j - 1) + (if IsSubscriptionStep(steps[j - 1]) then [StepRecordOf(steps[j - 1])] else [])
  }

  function SourceTriggers(steps: seq<Step>, sourceIds: seq<string>, j: nat): seq<Trigger>
    requires j <= |steps|
  {
    if j == 0 then [] else SourceTriggers(steps, sourceIds, j - 1) + SourceEntries(steps[j - 1], sourceIds)
  }

  function ContactTriggers(steps: seq<Step>, sourceIds: seq<string>, contactIds: seq<string>, j: nat): seq<bool>
    requires j <= |steps|
  {
    if j == 0 then [] else ContactTriggers(steps, sourceIds, contactIds, j - 1) + ContactEntries(steps[j - 1], sourceIds, contactIds)
  }

  /** The processing-step loop. */
  method ClassifySteps(steps: seq<Step>, sourceIds: seq<string>, contactIds: seq<string>)
    returns (records: seq<StepRecord>, sourceTrigger: seq<Trigger>, contactTrigger: seq<bool>)
    ensures records == StepRecords(steps, |steps|)
    ensures sourceTrigger == SourceTriggers(steps, sourceIds, |steps|)
    ensures contactTrigger == ContactTriggers(steps, sourceIds, contactIds, |steps|)
  {
    records, sourceTrigger, contactTrigger := [], [], [];
    for i := 0 to |steps|
      invariant records == StepRecords(steps, i)
      invariant sourceTrigger == SourceTriggers(steps, sourceIds, i)
      invariant contactTrigger == ContactTriggers(steps, sourceIds, contactIds, i)
    {
      var step := steps[i];
      if step.kind == CreateUpdateStep {
        if step.ruleSet.None? || step.ruleSet.value.id.None? {
          sourceTrigger := sourceTrigger + [Unreadable];
          contactTrigger := contactTrigger + [false];
        } else if step.ruleSet.value.id.value in sourceIds {
          if step.ruleSet.value.name.None? {
            sourceTrigger := sourceTrigger + [Unreadable];
            contactTrigger := contactTrigger + [false];
          } else {
            sourceTrigger := sourceTrigger + [RuleName(step.ruleSet.value.name.value)];
          }
        } else if step.ruleSet.value.id.value in contactIds {
          contactTrigger := contactTrigger + [true];
        }
      }
      if IsSubscriptionStep(step) {
        records := records + [StepRecordOf(step)];
      }
    }
  }

  /** The names kept from the trigger list: the truthy entries. */
  function TruthyNames(ts: seq<Trigger>, j: nat): seq<string>
    requires j <= |ts|
  {
    if j == 0 then []
    else TruthyNames(ts, j - 1) + (match ts[j - 1] case RuleName(n) => (if n != "" then [n] else []) case Unreadable => [])
  }

  /** `sharedSourceCountryUpdate`: the truthy names, or `False` when there are none. */
  function SourceUpdateOf(ts: seq<Trigger>): (u: SourceUpdate)
    ensures u.Rules? ==> |u.names| > 0 && u.names == TruthyNames(ts, |ts|)
    ensures u.NoRule? <==> |TruthyNames(ts, |ts|)| == 0
  {
    var names := TruthyNames(ts, |ts|);
    if |names| == 0 then NoRule else Rules(names)
  }

  /** A step names the rule `n` as a shared source-country update. */
  predicate NamesSourceRule(s: Step, sourceIds: seq<string>, n: string)
  {
    s.kind == CreateUpdateStep && s.ruleSet.Some? && s.ruleSet.value.id.Some? &&
    s.ruleSet.value.id.value in sourceIds && s.ruleSet.value.name == Some(n)
  }

  /** A step adds an entry to the contact update trigger list: its rule set
      cannot be read, or it is a contact update rule, or it is a
      source-country rule without a name. */
  predicate MarksContactTrigger(s: Step, sourceIds: seq<string>, contactIds: seq<string>)
  {
    s.kind == CreateUpdateStep &&
    (s.ruleSet.None? || s.ruleSet.value.id.None? ||
     (s.ruleSet.value.id.value in sourceIds && s.ruleSet.value.name.None?) ||
     (s.ruleSet.value.id.value !in sourceIds && s.ruleSet.value.id.value in contactIds))
  }

  /** The names in `sharedSourceCountryUpdate` are exactly the non-empty
      names of the source-country rules the steps run. */
  lemma {:induction false} SourceNamesMembers(steps: seq<Step>, sourceIds: seq<string>, j: nat, n: string)
    requires j <= |steps|
    ensures n in TruthyNames(SourceTriggers(steps, sourceIds, j), |SourceTriggers(steps, sourceIds, j)|) <==>
      n != "" && exists i | 0 <= i < j :: NamesSourceRule(steps[i], sourceIds, n)
    decreases j
  {
    if j > 0 {
      SourceNamesMembers(steps, sourceIds, j - 1, n);
      var prev := SourceTriggers(steps, sourceIds, j - 1);
      var entries := SourceEntries(steps[j - 1], sourceIds);
      TruthyNamesAppend(prev, entries);
      SourceEntriesNames(steps[j - 1], sourceIds, n);
      var names := TruthyNames(prev, |prev|) + TruthyNames(entries, |entries|);
      assert n in names <==> n in TruthyNames(prev, |prev|) || n in TruthyNames(entries, |entries|);
      if n != "" && exists i | 0 <= i < j :: NamesSourceRule(steps[i], sourceIds, n) {
        var i :| 0 <= i < j && NamesSourceRule(steps[i], sourceIds, n);
        assert i < j - 1 ==> exists i | 0 <= i < j - 1 :: NamesSourceRule(steps[i], sourceIds, n);
      }
    }
  }

  /** One step contributes the name `n` exactly when it is a source-country
      rule named `n` and `n` is not empty. */
  lemma SourceEntriesNames(s: Step, sourceIds: seq<string>, n: string)
    ensures var e := SourceEntries(s, sourceIds);
      n in TruthyNames(e, |e|) <==> n != "" && NamesSourceRule(s, sourceIds, n)
  {
    var e := SourceEntries(s, sourceIds);
    if |e| == 1 {
      assert TruthyNames(e, 1) == TruthyNames(e, 0) + (match e[0] case RuleName(m) => (if m != "" then [m] else []) case Unreadable => []);
    }
  }

  lemma {:induction false} TruthyNamesAppend(a: seq<Trigger>, b: seq<Trigger>)
    requires |b| <= 1
    ensures TruthyNames(a + b, |a + b|) == TruthyNames(a, |a|) + TruthyNames(b, |b|)
  {
    if |b| == 1 {
      var ab := a + b;
      assert ab[..|a|] == a;
      TruthyNamesPrefix(ab, a, |a|);
    } else {
      assert a + b == a;
    }
  }

  lemma {:induction false} TruthyNamesPrefix(ab: seq<Trigger>, a: seq<Trigger>, j: nat)
    requires j <= |a| <= |ab| && ab[..|a|] == a
    ensures TruthyNames(ab, j) == TruthyNames(a, j)
    decreases j
  {
    if j > 0 {
      assert ab[j - 1] == a[j - 1];
      TruthyNamesPrefix(ab, a, j - 1);
    }
  }

  /** `sharedContactUpdateTrigger` is set exactly when some step marks it,
      whether that entry is `True` or the `False` of an unreadable rule set. */
  lemma {:induction false} ContactTriggerSet(steps: seq<Step>, sourceIds: seq<string>, contactIds: seq<string>, j: nat)
    requires j <= |steps|
    ensures |ContactTriggers(steps, sourceIds, contactIds, j)| > 0 <==>
      exists i | 0 <= i < j :: MarksContactTrigger(steps[i], sourceIds, contactIds)
    decreases j
  {
    if j > 0 {
      ContactTriggerSet(steps, sourceIds, contactIds, j - 1);
      var s := steps[j - 1];
      assert |ContactEntries(s, sourceIds, contactIds)| > 0 <==> MarksContactTrigger(s, sourceIds, contactIds);
      if exists i | 0 <= i < j :: MarksContactTrigger(steps[i], sourceIds, contactIds) {
        var i :| 0 <= i < j && MarksContactTrigger(steps[i], sourceIds, contactIds);
        assert i < j - 1 ==> exists i | 0 <= i < j - 1 :: MarksContactTrigger(steps[i], sourceIds, contactIds);
      }
    }
  }

  /** The recorded steps are exactly the subscription-type steps, in order. */
  lemma {:induction false} StepRecordsMembers(steps: seq<Step>, j: nat, r: StepRecord)
    requires j <= |steps|
    ensures r in StepRecords(steps, j) <==> exists i | 0 <= i < j :: IsSubscriptionStep(steps[i]) && r == StepRecordOf(steps[i])
    decreases j
  {
    if j > 0 {
      StepRecordsMembers(steps, j - 1, r);
    }
  }

  // ---------------------------------------------------------------- one form

  /** The value `forms_dict` holds for a form. */
  function Summary(f: Form, sourceIds: seq<string>, contactIds: seq<string>): FormSummary
  {
    var steps := f.processingSteps;
    FormSummary(f.id, f.name, f.createdAt, f.htmlName, Records(Extracted(f.elements)),
                StepRecords(steps, |steps|), SourceUpdateOf(SourceTriggers(steps, sourceIds, |steps|)),
                |ContactTriggers(steps, sourceIds, contactIds, |steps|)| > 0)
  }

  /** The body of the loop over the forms. */
  method SummarizeForm(f: Form, sourceIds: seq<string>, contactIds: seq<string>) returns (s: FormSummary)
    ensures s == Summary(f, sourceIds, contactIds)
  {
    var formFields := ExtractFields(f.elements);
    var records, sourceTrigger, contactTrigger := ClassifySteps(f.processingSteps, sourceIds, contactIds);
    var names := [];
    for i := 0 to |sourceTrigger|
      invariant names == TruthyNames(sourceTrigger, i)
    {
      if sourceTrigger[i].RuleName? && sourceTrigger[i].name != "" {
        names := names + [sourceTrigger[i].name];
      }
    }
    var update := if |names| == 0 then NoRule else Rules(names);
    s := FormSummary(f.id, f.name, f.createdAt, f.htmlName, formFields, records, update, |contactTrigger| > 0);
  }

  // ---------------------------------------------------------------- forms_dict

  /** An insertion-ordered dictionary from form id to summary. */
  datatype FormsDict = FormsDict(keys: seq<string>, values: map<string, FormSummary>)

  /** `d[key] = v`: a new key goes last, an existing one keeps its place. */
  function Put(d: FormsDict, key: string, v: FormSummary): FormsDict
  {
    FormsDict(if key in d.values then d.keys else d.keys + [key], d.values[key := v])
  }

  /** The summaries of the first j forms, in listing order. */
  function Summaries(forms: seq<Form>, sourceIds: seq<string>, contactIds: seq<string>, j: nat): (r: seq<FormSummary>)
    requires j <= |forms|
    ensures |r| == j
  {
    if j == 0 then [] else Summaries(forms, sourceIds, contactIds, j - 1) + [Summary(forms[j - 1], sourceIds, contactIds)]
  }

  /** Summary k is the summary of form k, carrying its id. */
  lemma {:induction false} SummariesAt(forms: seq<Form>, sourceIds: seq<string>, contactIds: seq<string>, j: nat, k: nat)
    requires k < j <= |forms|
    ensures Summaries(forms, sourceIds, contactIds, j)[k] == Summary(forms[k], sourceIds, contactIds)
    ensures Summaries(forms, sourceIds, contactIds, j)[k].id == forms[k].id
    decreases j
  {
    if k < j - 1 {
      SummariesAt(forms, sourceIds, contactIds, j - 1, k);
    }
  }

  /** `forms_dict` after the first j summaries, each stored under its id. */
  function DictOf(entries: seq<FormSummary>, j: nat): FormsDict
    requires j <= |entries|
  {
    if j == 0 then FormsDict([], map[])
    else Put(DictOf(entries, j - 1), entries[j - 1].id, entries[j - 1])
  }

  /** Summaries after the first j do not change the dictionary of the first j. */
  lemma {:induction false} DictOfPrefix(entries: seq<FormSummary>, x: FormSummary, j: nat)
    requires j <= |entries|
    ensures DictOf(entries + [x], j) == DictOf(entries, j)
    decreases j
  {
    if j > 0 {
      DictOfPrefix(entries, x, j - 1);
      assert (entries + [x])[j - 1] == entries[j - 1];
    }
  }

  /** The keys are distinct and name exactly the stored values. */
  ghost predicate DictValid(d: FormsDict)
  {
    (forall a, b | 0 <= a < b < |d.keys| :: d.keys[a] != d.keys[b]) &&
    (forall k | k in d.values :: k in d.keys) && KeysStored(d)
  }

  /** Every key has a stored value. */
  ghost predicate KeysStored(d: FormsDict)
  {
    forall i | 0 <= i < |d.keys| :: d.keys[i] in d.values
  }

  /** Storing under a key already present keeps the dictionary valid. */
  lemma PutPresentValid(d: FormsDict, key: string, v: FormSummary)
    requires DictValid(d) && key in d.values
    ensures DictValid(Put(d, key, v))
  {
  }

  /** Storing under a new key keeps the dictionary valid. */
  lemma PutNewValid(d: FormsDict, key: string, v: FormSummary)
    requires DictValid(d) && key !in d.values
    ensures DictValid(Put(d, key, v))
  {
    var d' := Put(d, key, v);
    assert d'.keys == d.keys + [key];
    forall a, b | 0 <= a < b < |d'.keys|
      ensures d'.keys[a] != d'.keys[b]
    {
      if b == |d.keys| {
        assert d.keys[a] in d.values;
      }
    }
  }

  /** `forms_dict` keeps its keys distinct, one per stored value. */
  lemma {:induction false} DictOfValid(entries: seq<FormSummary>, j: nat)
    requires j <= |entries|
    ensures DictValid(DictOf(entries, j))
    decreases j
  {
    if j > 0 {
      DictOfValid(entries, j - 1);
      var d := DictOf(entries, j - 1);
      if entries[j - 1].id in d.values {
        PutPresentValid(d, entries[j - 1].id, entries[j - 1]);
      } else {
        PutNewValid(d, entries[j - 1].id, entries[j - 1]);
      }
    }
  }

  /** `forms_dict` holds an entry for exactly the ids of the summaries. */
  lemma {:induction false} DictOfIds(entries: seq<FormSummary>, j: nat, id: string)
    requires j <= |entries|
    ensures id in DictOf(entries, j).values <==> exists i | 0 <= i < j :: entries[i].id == id
    decreases j
  {
    if j > 0 {
      DictOfIds(entries, j - 1, id);
    }
  }

  /** Entry i is the last among the first j with the given id. */
  ghost predicate LastWithId(entries: seq<FormSummary>, j: nat, id: string, i: nat)
    requires j <= |entries|
  {
    i < j && entries[i].id == id && forall l | i < l < j :: entries[l].id != id
  }

  /** The entry for an id is the last summary carrying it. */
  lemma {:induction false} DictOfLastWins(entries: seq<FormSummary>, j: nat, id: string, i: nat)
    requires j <= |entries| && LastWithId(entries, j, id, i)
    ensures id in DictOf(entries, j).values && DictOf(entries, j).values[id] == entries[i]
    decreases j
  {
    if i < j - 1 {
      assert LastWithId(entries, j - 1, id, i);
      DictOfLastWins(entries, j - 1, id, i);
    }
  }

  /** Over the forms: the dictionary has an entry for exactly the form ids. */
  lemma FormsDictIds(forms: seq<Form>, sourceIds: seq<string>, contactIds: seq<string>, id: string)
    ensures id in DictOf(Summaries(forms, sourceIds, contactIds, |forms|), |forms|).values <==>
      exists k | 0 <= k < |forms| :: forms[k].id == id
  {
    var entries := Summaries(forms, sourceIds, contactIds, |forms|);
    DictOfIds(entries, |forms|, id);
    if exists k | 0 <= k < |forms| :: forms[k].id == id {
      var k :| 0 <= k < |forms| && forms[k].id == id;
      SummariesAt(forms, sourceIds, contactIds, |forms|, k);
      assert entries[k].id == id;
    }
    if exists k | 0 <= k < |forms| :: entries[k].id == id {
      var k :| 0 <= k < |forms| && entries[k].id == id;
      SummariesAt(forms, sourceIds, contactIds, |forms|, k);
      assert forms[k].id == id;
    }
  }

  /** Over the forms: the entry for an id is the summary of the last form
      carrying that id. */
  lemma FormsDictLastWins(forms: seq<Form>, sourceIds: seq<string>, contactIds: seq<string>, i: nat)
    requires i < |forms| && forall l | i < l < |forms| :: forms[l].id != forms[i].id
    ensures forms[i].id in DictOf(Summaries(forms, sourceIds, contactIds, |forms|), |forms|).values
    ensures DictOf(Summaries(forms, sourceIds, contactIds, |forms|), |forms|).values[forms[i].id] ==
      Summary(forms[i], sourceIds, contactIds)
  {
    var entries := Summaries(forms, sourceIds, contactIds, |forms|);
    forall l | i < l < |forms|
      ensures entries[l].id != forms[i].id
    {
      SummariesAt(forms, sourceIds, contactIds, |forms|, l);
    }
    SummariesAt(forms, sourceIds, contactIds, |forms|, i);
    assert LastWithId(entries, |forms|, forms[i].id, i);
    DictOfLastWins(entries, |forms|, forms[i].id, i);
  }

  /** The loop that fills `forms_dict`. */
  method BuildFormsDict(forms: seq<Form>, sourceIds: seq<string>, contactIds: seq<string>) returns (d: FormsDict)
    ensures d == DictOf(Summaries(forms, sourceIds, contactIds, |forms|), |forms|)
  {
    ghost var entries: seq<FormSummary> := [];
    d := FormsDict([], map[]);
    for i := 0 to |forms|
      invariant entries == Summaries(forms, sourceIds, contactIds, i)
      invariant d == DictOf(entries, i)
    {
      var summary := SummarizeForm(forms[i], sourceIds, contactIds);
      d := Put(d, forms[i].id, summary);
      DictOfPrefix(entries, summary, i);
      entries := entries + [summary];
    }
  }

  // ---------------------------------------------------------------- fix lists

  type Row = (string, string)

  const Header: Row := ("ID", "Name")

  /** The two report tables. */
  datatype Check = SourceCountryUpdate | ContactUpdateTrigger

  /** The form's flag for the table is falsy. */
  predicate NeedsFix(check: Check, s: FormSummary)
  {
    match check
    case SourceCountryUpdate => s.sourceUpdate.NoRule?
    case ContactUpdateTrigger => !s.contactTrigger
  }

  /** The table after the first j keys: the header, then one row per form
      whose flag is falsy, in dictionary order. */
  function FixRows(d: FormsDict, check: Check, j: nat): (rows: seq<Row>)
    requires KeysStored(d) && j <= |d.keys|
    ensures |rows| >= 1 && rows[0] == Header
  {
    if j == 0 then [Header]
    else
      var s := d.values[d.keys[j - 1]];
      FixRows(d, check, j - 1) + (if NeedsFix(check, s) then [(s.id, s.name)] else [])
  }

  ghost predicate NeedsFixAt(d: FormsDict, check: Check, k: nat)
    requires KeysStored(d) && k < |d.keys|
  {
    NeedsFix(check, d.values[d.keys[k]])
  }

  /** The indices of the first j keys whose form needs the fix. */
  ghost function Flagged(d: FormsDict, check: Check, j: nat): set<nat>
    requires KeysStored(d) && j <= |d.keys|
  {
    set k: nat | k < j && NeedsFixAt(d, check, k)
  }

  /** The count printed, the table's length minus one, is the number of
      forms that need the fix. */
  lemma {:induction false} FixRowsCount(d: FormsDict, check: Check, j: nat)
    requires KeysStored(d) && j <= |d.keys|
    ensures |FixRows(d, check, j)| - 1 == |Flagged(d, check, j)|
    decreases j
  {
    if j > 0 {
      FixRowsCount(d, check, j - 1);
      var before, after := Flagged(d, check, j - 1), Flagged(d, check, j);
      assert j - 1 !in before;
      if NeedsFix(check, d.values[d.keys[j - 1]]) {
        assert after == before + {j - 1};
      } else {
        assert after == before;
      }
    }
  }

  /** The rows after the header are exactly the forms that need the fix. */
  lemma {:induction false} FixRowsMembers(d: FormsDict, check: Check, j: nat, row: Row)
    requires KeysStored(d) && j <= |d.keys|
    ensures row in FixRows(d, check, j)[1..] <==>
      exists k | 0 <= k < j :: NeedsFix(check, d.values[d.keys[k]]) && row == (d.values[d.keys[k]].id, d.values[d.keys[k]].name)
    decreases j
  {
    if j > 0 {
      FixRowsMembers(d, check, j - 1, row);
      var prev := FixRows(d, check, j - 1);
      var s := d.values[d.keys[j - 1]];
      if NeedsFix(check, s) {
        assert FixRows(d, check, j)[1..] == prev[1..] + [(s.id, s.name)];
      } else {
        assert FixRows(d, check, j) == prev;
      }
    }
  }

  /** The loop over `forms_dict` that fills both tables. */
  method FixLists(d: FormsDict) returns (noSource: seq<Row>, noContact: seq<Row>)
    requires KeysStored(d)
    ensures noSource == FixRows(d, SourceCountryUpdate, |d.keys|)
    ensures noContact == FixRows(d, ContactUpdateTrigger, |d.keys|)
  {
    noSource, noContact := [Header], [Header];
    for i := 0 to |d.keys|
      invariant noSource == FixRows(d, SourceCountryUpdate, i)
      invariant noContact == FixRows(d, ContactUpdateTrigger, i)
    {
      var s := d.values[d.keys[i]];
      if s.sourceUpdate.NoRule? {
        noSource := noSource + [(s.id, s.name)];
      }
      if !s.contactTrigger {
        noContact := noContact + [(s.id, s.name)];
      }
    }
  }

  // ---------------------------------------------------------------- live campaigns

  /** The campaign a form name belongs to: its first four `_`-parts. */
  function CampaignBase(name: string): string
  {
    var parts := Split(name, '_');
    Join(parts[..if |parts| < 4 then |parts| else 4], "_")
  }

  lemma {:induction false} JoinPrefix(parts: seq<string>, m: nat, sep: string)
    requires m <= |parts|
    ensures StartsWith(Join(parts, sep), Join(parts[..m], sep))
    decreases m
  {
    if m == 1 {
      assert parts[..1] == [parts[0]];
    } else if m > 1 {
      JoinPrefix(parts[1..], m - 1, sep);
      assert parts[..m][1..] == parts[1..][..m - 1];
    }
  }

  /** The campaign base is the start of the name, and a name of at most four
      parts is its own base. */
  lemma CampaignBaseOfName(name: string)
    ensures StartsWith(name, CampaignBase(name))
    ensures |Split(name, '_')| <= 4 ==> CampaignBase(name) == name
  {
    var parts := Split(name, '_');
    JoinSplit(name, '_');
    JoinPrefix(parts, if |parts| < 4 then |parts| else 4, "_");
    assert parts[..|parts|] == parts;
  }

  /** The table of forms in live campaigns, from a fix table: the header,
      then the rows after the first j whose campaign base does not occur in
      the text of the completed-campaign list. */
  function LiveRows(rows: seq<Row>, completed: string, j: nat): (live: seq<Row>)
    requires j <= |rows|
    ensures |live| >= 1 && live[0] == Header
  {
    if j <= 1 then [Header]
    else LiveRows(rows, completed, j - 1) + (if !Contains(completed, CampaignBase(rows[j - 1].1)) then [rows[j - 1]] else [])
  }

  /** A row is kept exactly when it is a row of the table, not its header,
      and its campaign is not among the completed ones. */
  lemma {:induction false} LiveRowsMembers(rows: seq<Row>, completed: string, j: nat, row: Row)
    requires j <= |rows|
    ensures row in LiveRows(rows, completed, j)[1..] <==>
      exists k | 1 <= k < j :: rows[k] == row && !Contains(completed, CampaignBase(row.1))
    decreases j
  {
    if j > 1 {
      LiveRowsMembers(rows, completed, j - 1, row);
      var prev := LiveRows(rows, completed, j - 1);
      if !Contains(completed, CampaignBase(rows[j - 1].1)) {
        assert LiveRows(rows, completed, j)[1..] == prev[1..] + [rows[j - 1]];
      } else {
        assert LiveRows(rows, completed, j) == prev;
      }
    }
  }

  /** The loop over a fix table's rows after the header. */
  method LiveErrors(rows: seq<Row>, completed: string) returns (live: seq<Row>)
    ensures live == LiveRows(rows, completed, |rows|)
  {
    live := [Header];
    var i := 1;
    while i < |rows|
      invariant 1 <= i && (i <= |rows| || |rows| == 0)
      invariant live == LiveRows(rows, completed, if i <= |rows| then i else |rows|)
    {
      var form := rows[i];
      if !Contains(completed, CampaignBase(form.1)) {
        live := live + [form];
      }
      i := i + 1;
    }
  }

  // ---------------------------------------------------------------- the report

  /** Everything `form_data` writes out: the query, `forms_dict`, the two fix
      tables and, for a `WKPL` query, their live-campaign counterparts. */
  datatype Report = Report(query: string, forms: FormsDict, noSource: seq<Row>, noContact: seq<Row>,
                           live: Option<(seq<Row>, seq<Row>)>)

  /** `form_data`, against the responses of the form listing. The listing
      never stopping is `None`. */
  method FormData(typed: string, clipboard: string, pages: seq<Paging.Page<Form>>, sourceIds: seq<string>, contactIds: seq<string>,
                  completed: string)
    returns (r: Option<Report>)
    ensures Paging.Collected(pages, FormPageSize).None? <==> r.None?
    ensures r.Some? ==>
      var forms := Paging.Collected(pages, FormPageSize).value.0;
      var d := DictOf(Summaries(forms, sourceIds, contactIds, |forms|), |forms|);
      DictValid(d) &&
      r.value.query == SearchQuery(typed, clipboard) && r.value.forms == d &&
      r.value.noSource == FixRows(d, SourceCountryUpdate, |d.keys|) &&
      r.value.noContact == FixRows(d, ContactUpdateTrigger, |d.keys|) &&
      (r.value.live.Some? <==> Contains(r.value.query, "WKPL")) &&
      (r.value.live.Some? ==>
         r.value.live.value.0 == LiveRows(r.value.noSource, completed, |r.value.noSource|) &&
         r.value.live.value.1 == LiveRows(r.value.noContact, completed, |r.value.noContact|))
  {
    var query := SearchQuery(typed, clipboard);
    var forms, requested := CollectForms(pages);
    if forms.None? {
      return None;
    }
    var d := BuildFormsDict(forms.value, sourceIds, contactIds);
    DictOfValid(Summaries(forms.value, sourceIds, contactIds, |forms.value|), |forms.value|);
    var noSource, noContact := FixLists(d);
    var live := None;
    if Contains(query, "WKPL") {
      var liveSource := LiveErrors(noSource, completed);
      var liveContact := LiveErrors(noContact, completed);
      live := Some((liveSource, liveContact));
    }
    r := Some(Report(query, d, noSource, noContact, live));
  }
}
