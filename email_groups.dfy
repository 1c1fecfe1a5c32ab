/** The e-mail group program creator (`email_groups` in utils/admin.py):
    for every e-mail group of the chosen country it creates a form and a
    pair of shared filters, records each created asset under the group's
    name in an insertion-ordered dictionary of lists, and finally builds
    one program canvas that reads the filter ids back from that
    dictionary. The ids the API answers with are given as sequences,
    one per created asset, in creation order. */
module EmailGroups {
  import opened Outcomes
  import opened Text
  import opened AdminTemplates

  /** A created asset: its name and the id the API gave it. */
  datatype Asset = Asset(name: string, id: string)

  /** The contents of `assets_created`, a `defaultdict(list)`: its keys in
      insertion order, and the list under each key. */
  datatype Registry = Registry(keys: seq<string>, lists: map<string, seq<Asset>>)

  predicate DistinctKeys(keys: seq<string>)
  {
    forall i, j | 0 <= i < j < |keys| :: keys[i] != keys[j]
  }

  /** The keys are exactly the dictionary's keys, each once. */
  ghost predicate WellFormed(r: Registry)
  {
    DistinctKeys(r.keys) && forall key :: key in r.lists <==> key in r.keys
  }

  const Empty := Registry([], map[])

  /** `assets_created[key]`: a missing key reads as the empty list. */
  function Entry(r: Registry, key: string): seq<Asset>
  {
    if key in r.lists then r.lists[key] else []
  }

  /** `assets_created[key].append(asset)`: a new key goes to the end of the
      key order. */
  function Add(r: Registry, key: string, asset: Asset): Registry
  {
    Registry(if key in r.lists then r.keys else r.keys + [key], r.lists[key := Entry(r, key) + [asset]])
  }

  /** Appending extends the list under `key` by the asset and leaves every
      other list as it was; a new key goes to the end of the key order. */
  lemma AddEntries(r: Registry, key: string, asset: Asset)
    ensures Entry(Add(r, key, asset), key) == Entry(r, key) + [asset]
    ensures forall other | other != key :: Entry(Add(r, key, asset), other) == Entry(r, other)
    ensures Add(r, key, asset).lists.Keys == r.lists.Keys + {key}
    ensures key in r.lists ==> Add(r, key, asset).keys == r.keys
    ensures key !in r.lists ==> Add(r, key, asset).keys == r.keys + [key]
  {
  }

  /** Appending keeps the keys distinct and in step with the dictionary. */
  lemma AddWellFormed(r: Registry, key: string, asset: Asset)
    requires WellFormed(r)
    ensures WellFormed(Add(r, key, asset))
  {
  }

  /** `assets_created`, kept in place and appended to by the builders. */
  class AssetRegistry {
    var keys: seq<string>
    var lists: map<string, seq<Asset>>

    function State(): Registry
      reads this
    {
      Registry(keys, lists)
    }

    ghost predicate Valid()
      reads this
    {
      WellFormed(State())
    }

    constructor()
      ensures State() == Empty && Valid()
    {
      keys := [];
      lists := map[];
    }

    /** `assets_created[key].append(asset)`. */
    method Append(key: string, asset: Asset)
      requires Valid()
      modifies this
      ensures Valid()
      ensures State() == Add(old(State()), key, asset)
    {
      AddWellFormed(State(), key, asset);
      var list := [];
      if key in lists {
        list := lists[key];
      } else {
        keys := keys + [key];
      }
      lists := lists[key := list + [asset]];
    }

    /** The list under `key`, empty for a key not yet present. */
    method Get(key: string) returns (assets: seq<Asset>)
      ensures assets == Entry(State(), key)
    {
      if key in lists {
        assets := lists[key];
      } else {
        assets := [];
      }
    }
  }

  // ---------------------------------------------------------------- what the builders record

  /** The names of the first j groups, in order. */
  function Names(groups: seq<(string, string)>, j: nat): seq<string>
    requires j <= |groups|
  {
    if j == 0 then [] else Names(groups, j - 1) + [groups[j - 1].0]
  }

  lemma {:induction false} NamesAt(groups: seq<(string, string)>, j: nat)
    requires j <= |groups|
    ensures |Names(groups, j)| == j && forall i | 0 <= i < j :: Names(groups, j)[i] == groups[i].0
    decreases j
  {
    if j > 0 {
      NamesAt(groups, j - 1);
    }
  }

  /** The groups come from a JSON object, so their names are distinct. */
  predicate DistinctNames(groups: seq<(string, string)>)
  {
    forall i, j | 0 <= i < j < |groups| :: groups[i].0 != groups[j].0
  }

  /** The form of group i: named `g0-g1_FORM`, with the i-th form id. */
  function FormAsset(group: (string, string), formId: string): Asset
  {
    Asset(FormName(group.0, group.1), formId)
  }

  /** The forms the form builder records, one per group. */
  function Forms(groups: seq<(string, string)>, formIds: seq<string>): (r: seq<Asset>)
    requires |formIds| == |groups|
    ensures |r| == |groups| && forall i | 0 <= i < |groups| :: r[i] == FormAsset(groups[i], formIds[i])
  {
    seq(|groups|, i requires 0 <= i < |groups| => FormAsset(groups[i], formIds[i]))
  }

  /** The subscription (or unsubscription) filters the filter builder
      records, one per group. */
  function Filters(country: string, groups: seq<(string, string)>, ids: seq<string>, subscribe: bool): (r: seq<Asset>)
    requires |ids| == |groups|
    ensures |r| == |groups|
    ensures forall i | 0 <= i < |groups| :: r[i] == Asset(FilterName(country, groups[i].0, groups[i].1, subscribe), ids[i])
  {
    seq(|groups|, i requires 0 <= i < |groups| => Asset(FilterName(country, groups[i].0, groups[i].1, subscribe), ids[i]))
  }

  /** The registry after the form builder's first j appends: each group's
      form, under the group's name. */
  function FormsAdded(r: Registry, groups: seq<(string, string)>, forms: seq<Asset>, j: nat): Registry
    requires j <= |groups| && |forms| == |groups|
  {
    if j == 0 then r else Add(FormsAdded(r, groups, forms, j - 1), groups[j - 1].0, forms[j - 1])
  }

  /** The registry after the shared-filter builder's appends for the first
      j groups: per group, its subscription filter and then its
      unsubscription filter, under the group's name. */
  function FiltersAdded(r: Registry, groups: seq<(string, string)>, subs: seq<Asset>, unsubs: seq<Asset>, j: nat): Registry
    requires j <= |groups| && |subs| == |groups| && |unsubs| == |groups|
  {
    if j == 0 then r
    else Add(Add(FiltersAdded(r, groups, subs, unsubs, j - 1), groups[j - 1].0, subs[j - 1]), groups[j - 1].0, unsubs[j - 1])
  }

  /** The form create calls for the first j groups: each form's name and
      its filled template. */
  function FormCalls(template: string, groups: seq<(string, string)>, folderId: string, j: nat): (r: seq<(string, string)>)
    requires j <= |groups|
    ensures |r| == j
  {
    if j == 0 then []
    else
      var g := groups[j - 1];
      FormCalls(template, groups, folderId, j - 1) + [(FormName(g.0, g.1), FillForm(template, g.0, g.1, folderId))]
  }

  /** The filter create calls for the first j groups, subscription first. */
  function FilterCalls(template: string, country: string, groups: seq<(string, string)>, folderId: string, j: nat): (r: seq<(string, string)>)
    requires j <= |groups|
    ensures |r| == 2 * j
  {
    if j == 0 then []
    else
      var g := groups[j - 1];
      FilterCalls(template, country, groups, folderId, j - 1) +
      [(FilterName(country, g.0, g.1, true), FillFilter(template, country, g.0, g.1, folderId, true)),
       (FilterName(country, g.0, g.1, false), FillFilter(template, country, g.0, g.1, folderId, false))]
  }

  /** Every group yields exactly one form call, in group order. */
  lemma {:induction false} FormCallsPerGroup(template: string, groups: seq<(string, string)>, folderId: string, j: nat)
    requires j <= |groups|
    ensures forall i | 0 <= i < j ::
      FormCalls(template, groups, folderId, j)[i] == (FormName(groups[i].0, groups[i].1), FillForm(template, groups[i].0, groups[i].1, folderId))
    decreases j
  {
    if j > 0 {
      FormCallsPerGroup(template, groups, folderId, j - 1);
    }
  }

  /** Every group yields exactly two filter calls, right after those of the
      groups before it: subscription, then unsubscription. */
  lemma {:induction false} FilterCallsPerGroup(template: string, country: string, groups: seq<(string, string)>, folderId: string, j: nat)
    requires j <= |groups|
    ensures forall i | 0 <= i < j ::
      FilterCalls(template, country, groups, folderId, j)[2 * i] ==
        (FilterName(country, groups[i].0, groups[i].1, true), FillFilter(template, country, groups[i].0, groups[i].1, folderId, true))
    ensures forall i | 0 <= i < j ::
      FilterCalls(template, country, groups, folderId, j)[2 * i + 1] ==
        (FilterName(country, groups[i].0, groups[i].1, false), FillFilter(template, country, groups[i].0, groups[i].1, folderId, false))
    decreases j
  {
    if j > 0 {
      FilterCallsPerGroup(template, country, groups, folderId, j - 1);
      var prev := FilterCalls(template, country, groups, folderId, j - 1);
      var calls := FilterCalls(template, country, groups, folderId, j);
      assert calls[..2 * (j - 1)] == prev;
      forall i | 0 <= i < j - 1 ensures calls[2 * i] == prev[2 * i] && calls[2 * i + 1] == prev[2 * i + 1] {
        assert calls[..2 * (j - 1)][2 * i] == calls[2 * i];
        assert calls[..2 * (j - 1)][2 * i + 1] == calls[2 * i + 1];
      }
    }
  }

  /** Two appends under a key already present. */
  lemma AddPair(r: Registry, key: string, a: Asset, b: Asset)
    requires key in r.lists
    ensures var r2 := Add(Add(r, key, a), key, b);
      r2.keys == r.keys && Entry(r2, key) == Entry(r, key) + [a, b] &&
      forall other | other != key :: Entry(r2, other) == Entry(r, other)
  {
    AddEntries(r, key, a);
    AddEntries(Add(r, key, a), key, b);
  }

  /** The create call of one shared filter and the asset it records. */
  method CreateFilter(reg: AssetRegistry, template: string, country: string, group: (string, string), folderId: string,
                      subscribe: bool, id: string)
    returns (call: (string, string))
    requires reg.Valid()
    modifies reg
    ensures reg.Valid()
    ensures reg.State() == Add(old(reg.State()), group.0, Asset(FilterName(country, group.0, group.1, subscribe), id))
    ensures call == (FilterName(country, group.0, group.1, subscribe), FillFilter(template, country, group.0, group.1, folderId, subscribe))
  {
    var name := FilterName(country, group.0, group.1, subscribe);
    call := (name, FillFilter(template, country, group.0, group.1, folderId, subscribe));
    reg.Append(group.0, Asset(name, id));
  }

  /** `form_builder`: creates one form per group from the form template and
      records it under the group's name. Returns the create calls. */
  method FormBuilder(reg: AssetRegistry, template: string, groups: seq<(string, string)>, folderId: string, formIds: seq<string>)
    returns (calls: seq<(string, string)>)
    requires reg.Valid() && |formIds| == |groups|
    modifies reg
    ensures reg.Valid()
    ensures reg.State() == FormsAdded(old(reg.State()), groups, Forms(groups, formIds), |groups|)
    ensures calls == FormCalls(template, groups, folderId, |groups|)
  {
    calls := [];
    var i := 0;
    while i < |groups|
      invariant 0 <= i <= |groups|
      invariant reg.Valid()
      invariant reg.State() == FormsAdded(old(reg.State()), groups, Forms(groups, formIds), i)
      invariant calls == FormCalls(template, groups, folderId, i)
    {
      var g := groups[i];
      var formName := FormName(g.0, g.1);
      var formString := FillForm(template, g.0, g.1, folderId);
      calls := calls + [(formName, formString)];
      reg.Append(g.0, Asset(formName, formIds[i]));
      i := i + 1;
    }
  }

  /** `sharedfilter_builder`: creates a subscription and an unsubscription
      shared filter per group and records both, in that order, under the
      group's name. Returns the create calls. */
  method SharedFilterBuilder(reg: AssetRegistry, template: string, country: string, groups: seq<(string, string)>, folderId: string,
                             subIds: seq<string>, unsubIds: seq<string>)
    returns (calls: seq<(string, string)>)
    requires reg.Valid() && |subIds| == |groups| && |unsubIds| == |groups|
    modifies reg
    ensures reg.Valid()
    ensures reg.State() == FiltersAdded(old(reg.State()), groups, Filters(country, groups, subIds, true), Filters(country, groups, unsubIds, false), |groups|)
    ensures calls == FilterCalls(template, country, groups, folderId, |groups|)
  {
    calls := [];
    ghost var subs, unsubs := Filters(country, groups, subIds, true), Filters(country, groups, unsubIds, false);
    var i := 0;
    while i < |groups|
      invariant 0 <= i <= |groups|
      invariant reg.Valid()
      invariant reg.State() == FiltersAdded(old(reg.State()), groups, subs, unsubs, i)
      invariant calls == FilterCalls(template, country, groups, folderId, i)
    {
      var g := groups[i];
      var sub, unsub := CreateFilterPair(reg, template, country, g, folderId, subIds[i], unsubIds[i]);
      calls := calls + [sub, unsub];
      i := i + 1;
    }
  }

  /** The two filters of one group: subscription, then unsubscription. */
  method CreateFilterPair(reg: AssetRegistry, template: string, country: string, group: (string, string), folderId: string,
                          subId: string, unsubId: string)
    returns (sub: (string, string), unsub: (string, string))
    requires reg.Valid()
    modifies reg
    ensures reg.Valid()
    ensures reg.State() == Add(Add(old(reg.State()), group.0, Asset(FilterName(country, group.0, group.1, true), subId)),
                               group.0, Asset(FilterName(country, group.0, group.1, false), unsubId))
    ensures sub == (FilterName(country, group.0, group.1, true), FillFilter(template, country, group.0, group.1, folderId, true))
    ensures unsub == (FilterName(country, group.0, group.1, false), FillFilter(template, country, group.0, group.1, folderId, false))
  {
    sub := CreateFilter(reg, template, country, group, folderId, true, subId);
    unsub := CreateFilter(reg, template, country, group, folderId, false, unsubId);
  }

  // ---------------------------------------------------------------- the layout the program builder relies on

  /** After the form builder's first j appends, from an empty registry: one
      key per group, in group order, each holding only its form; the later
      groups have no key yet. */
  lemma {:induction false} FormLayout(groups: seq<(string, string)>, forms: seq<Asset>, j: nat)
    requires j <= |groups| && |forms| == |groups| && DistinctNames(groups)
    ensures var r := FormsAdded(Empty, groups, forms, j);
      r.keys == Names(groups, j) &&
      (forall i | 0 <= i < j :: Entry(r, groups[i].0) == [forms[i]]) &&
      (forall i | j <= i < |groups| :: groups[i].0 !in r.lists)
    decreases j
  {
    if j > 0 {
      var n := j - 1;
      var g := groups[n];
      FormLayout(groups, forms, n);
      var prev := FormsAdded(Empty, groups, forms, n);
      var r := Add(prev, g.0, forms[n]);
      AddEntries(prev, g.0, forms[n]);
      forall i | 0 <= i < j ensures Entry(r, groups[i].0) == [forms[i]] {
        if i < n {
          assert Entry(r, groups[i].0) == Entry(prev, groups[i].0);
        } else {
          assert Entry(prev, g.0) == [];
        }
      }
    }
  }

  /** The registry after the filters of the first j groups: keys are the
      group names, groups before j hold [form, sub, unsub], the others still
      only their form. */
  ghost predicate FiltersDone(r: Registry, groups: seq<(string, string)>, forms: seq<Asset>, subs: seq<Asset>, unsubs: seq<Asset>, j: nat)
    requires |forms| == |groups| && |subs| == |groups| && |unsubs| == |groups| && j <= |groups|
  {
    r.keys == Names(groups, |groups|) &&
    (forall i | 0 <= i < j :: Entry(r, groups[i].0) == [forms[i], subs[i], unsubs[i]]) &&
    (forall i | j <= i < |groups| :: Entry(r, groups[i].0) == [forms[i]])
  }

  lemma FilterLayoutStep(prev: Registry, groups: seq<(string, string)>, forms: seq<Asset>, subs: seq<Asset>, unsubs: seq<Asset>, n: nat)
    requires |forms| == |groups| && |subs| == |groups| && |unsubs| == |groups| && n < |groups|
    requires DistinctNames(groups)
    requires FiltersDone(prev, groups, forms, subs, unsubs, n)
    ensures FiltersDone(Add(Add(prev, groups[n].0, subs[n]), groups[n].0, unsubs[n]), groups, forms, subs, unsubs, n + 1)
  {
    var g := groups[n];
    var r := Add(Add(prev, g.0, subs[n]), g.0, unsubs[n]);
    assert Entry(prev, g.0) == [forms[n]];
    AddPair(prev, g.0, subs[n], unsubs[n]);
  }

  /** The filter appends of the first j groups on top of all forms. */
  lemma {:induction false} FilterLayout(groups: seq<(string, string)>, forms: seq<Asset>, subs: seq<Asset>, unsubs: seq<Asset>, j: nat)
    requires |forms| == |groups| && |subs| == |groups| && |unsubs| == |groups| && j <= |groups|
    requires DistinctNames(groups)
    ensures FiltersDone(FiltersAdded(FormsAdded(Empty, groups, forms, |groups|), groups, subs, unsubs, j),
                        groups, forms, subs, unsubs, j)
    decreases j
  {
    var base := FormsAdded(Empty, groups, forms, |groups|);
    if j == 0 {
      FormLayout(groups, forms, |groups|);
    } else {
      var n := j - 1;
      FilterLayout(groups, forms, subs, unsubs, n);
      FilterLayoutStep(FiltersAdded(base, groups, subs, unsubs, n), groups, forms, subs, unsubs, n);
    }
  }

  /** The three assets of a group, in the order they were recorded. */
  function GroupAssets(country: string, group: (string, string), formId: string, subId: string, unsubId: string): seq<Asset>
  {
    [FormAsset(group, formId),
     Asset(FilterName(country, group.0, group.1, true), subId),
     Asset(FilterName(country, group.0, group.1, false), unsubId)]
  }

  /** The registry both builders leave behind, from an empty one. */
  function Layout(country: string, groups: seq<(string, string)>, formIds: seq<string>, subIds: seq<string>, unsubIds: seq<string>): Registry
    requires |formIds| == |groups| && |subIds| == |groups| && |unsubIds| == |groups|
  {
    FiltersAdded(FormsAdded(Empty, groups, Forms(groups, formIds), |groups|),
                 groups, Filters(country, groups, subIds, true), Filters(country, groups, unsubIds, false), |groups|)
  }

  /** The layout the program builder reads: the keys are the group names in
      order, and each group's list is [form, sub filter, unsub filter], so
      indices 1 and 2 hold the group's two filters. */
  lemma LayoutOfGroups(country: string, groups: seq<(string, string)>, formIds: seq<string>, subIds: seq<string>, unsubIds: seq<string>)
    requires |formIds| == |groups| && |subIds| == |groups| && |unsubIds| == |groups|
    requires DistinctNames(groups)
    ensures var r := Layout(country, groups, formIds, subIds, unsubIds);
      r.keys == Names(groups, |groups|) &&
      forall i | 0 <= i < |groups| :: Entry(r, groups[i].0) == GroupAssets(country, groups[i], formIds[i], subIds[i], unsubIds[i])
  {
    var forms, subs, unsubs := Forms(groups, formIds), Filters(country, groups, subIds, true), Filters(country, groups, unsubIds, false);
    FilterLayout(groups, forms, subs, unsubs, |groups|);
    var r := Layout(country, groups, formIds, subIds, unsubIds);
    forall i | 0 <= i < |groups| ensures Entry(r, groups[i].0) == GroupAssets(country, groups[i], formIds[i], subIds[i], unsubIds[i]) {
      assert Entry(r, groups[i].0) == [forms[i], subs[i], unsubs[i]];
    }
  }

  // ---------------------------------------------------------------- program_builder

  /** Why the program builder stops: no group was recorded (the first key
      cannot be read), or a group's list is too short to hold both filters
      (index 1 or 2 is missing). Both are an `IndexError` in the source. */
  datatype ProgramError = NoGroups | MissingFilter(group: string)

  /** `WKCORP_GDPR-Subscription-{c}_PROG`, where c is the first key up to
      its first `_`. */
  function ProgramName(firstKey: string): string
  {
    "WKCORP_GDPR-Subscription-" + Split(firstKey, '_')[0] + "_PROG"
  }

  /** A group key `{country}_{rest}` names the program after the country. */
  lemma ProgramNameOfCountry(country: string, rest: string)
    requires '_' !in country
    ensures ProgramName(country + "_" + rest) == "WKCORP_GDPR-Subscription-" + country + "_PROG"
  {
    SplitAtFirst(country, '_', rest);
    assert country + "_" + rest == country + ['_'] + rest;
  }

  /** The k-th group (1-based) of n uses the last-step template exactly
      when k = n, and the ordinary step template otherwise. */
  function StepTemplate(k: nat, n: nat, stepsTemplate: string, lastTemplate: string): string
  {
    if k == n then lastTemplate else stepsTemplate
  }

  /** The first key, at index k or later, whose list has fewer than three assets. */
  function FirstShort(r: Registry, k: nat): (res: Option<nat>)
    requires k <= |r.keys|
    ensures res.Some? ==> k <= res.value < |r.keys| && |Entry(r, r.keys[res.value])| < 3
    ensures res.Some? ==> forall i | k <= i < res.value :: |Entry(r, r.keys[i])| >= 3
    ensures res.None? ==> forall i | k <= i < |r.keys| :: |Entry(r, r.keys[i])| >= 3
    decreases |r.keys| - k
  {
    if k == |r.keys| then None
    else if |Entry(r, r.keys[k])| < 3 then Some(k)
    else FirstShort(r, k + 1)
  }

  lemma {:induction false} FirstShortIs(r: Registry, k: nat, m: nat)
    requires k <= m < |r.keys| && |Entry(r, r.keys[m])| < 3
    requires forall i | k <= i < m :: |Entry(r, r.keys[i])| >= 3
    ensures FirstShort(r, k) == Some(m)
    decreases m - k
  {
    if k < m {
      FirstShortIs(r, k + 1, m);
    }
  }

  /** The filled step of the k-th group (1-based): its name, 150k + 100 and
      150k, and the ids at indices 1 and 2 of its list. */
  function FilledStep(r: Registry, k: nat, stepsTemplate: string, lastTemplate: string): string
    requires 1 <= k <= |r.keys| && |Entry(r, r.keys[k - 1])| >= 3
  {
    var assets := Entry(r, r.keys[k - 1]);
    FillSteps(StepTemplate(k, |r.keys|, stepsTemplate, lastTemplate), r.keys[k - 1], k, assets[1].id, assets[2].id)
  }

  /** The canvas after the steps of the first j groups: each step replaces
      every `INSERT_STEPS` of the canvas so far. */
  function CanvasAfter(r: Registry, start: string, stepsTemplate: string, lastTemplate: string, j: nat): string
    requires j <= |r.keys| && forall i | 0 <= i < j :: |Entry(r, r.keys[i])| >= 3
  {
    if j == 0 then start
    else Replace(CanvasAfter(r, start, stepsTemplate, lastTemplate, j - 1), "INSERT_STEPS", FilledStep(r, j, stepsTemplate, lastTemplate))
  }

  /** What the program builder answers for a registry: the program's name and
      its filled canvas, or the reason it stops. */
  function ProgramOf(r: Registry, canvas: string, stepsTemplate: string, lastTemplate: string): Result<(string, string), ProgramError>
  {
    if |r.keys| == 0 then Err(NoGroups)
    else match FirstShort(r, 0)
      case Some(i) => Err(MissingFilter(r.keys[i]))
      case None =>
        var name := ProgramName(r.keys[0]);
        Ok((name, CanvasAfter(r, Replace(canvas, "PROGRAM_NAME", name), stepsTemplate, lastTemplate, |r.keys|)))
  }

  /** `program_builder`: names the program after the first key, fills one
      step per key in key order, and records the program under "Program". */
  method ProgramBuilder(reg: AssetRegistry, canvas: string, stepsTemplate: string, lastTemplate: string, programId: string)
    returns (r: Result<(string, string), ProgramError>)
    requires reg.Valid()
    modifies reg
    ensures reg.Valid()
    ensures r == ProgramOf(old(reg.State()), canvas, stepsTemplate, lastTemplate)
    ensures r.Ok? ==> reg.State() == Add(old(reg.State()), "Program", Asset(r.value.0, programId))
    ensures r.Err? ==> reg.State() == old(reg.State())
  {
    ghost var st := reg.State();
    var keys := reg.keys;
    if |keys| == 0 {
      return Err(NoGroups);
    }
    var name := ProgramName(keys[0]);
    var program := Replace(canvas, "PROGRAM_NAME", name);
    ghost var start := program;
    var counter := 1;
    while counter <= |keys|
      modifies {}
      invariant 1 <= counter <= |keys| + 1
      invariant forall i | 0 <= i < counter - 1 :: |Entry(st, st.keys[i])| >= 3
      invariant program == CanvasAfter(st, start, stepsTemplate, lastTemplate, counter - 1)
    {
      var filled := ProgramStep(reg, counter, stepsTemplate, lastTemplate);
      if filled.None? {
        FirstShortIs(st, 0, counter - 1);
        ProgramOfMissing(st, canvas, stepsTemplate, lastTemplate, counter - 1);
        return Err(MissingFilter(keys[counter - 1]));
      }
      program := Replace(program, "INSERT_STEPS", filled.value);
      counter := counter + 1;
    }
    assert FirstShort(st, 0) == None;
    ProgramOfComplete(st, canvas, stepsTemplate, lastTemplate);
    reg.Append("Program", Asset(name, programId));
    r := Ok((name, program));
  }

  lemma ProgramOfMissing(r: Registry, canvas: string, stepsTemplate: string, lastTemplate: string, m: nat)
    requires m < |r.keys| && FirstShort(r, 0) == Some(m)
    ensures ProgramOf(r, canvas, stepsTemplate, lastTemplate) == Err(MissingFilter(r.keys[m]))
  {
  }

  lemma ProgramOfComplete(r: Registry, canvas: string, stepsTemplate: string, lastTemplate: string)
    requires |r.keys| > 0 && FirstShort(r, 0) == None
    ensures var name := ProgramName(r.keys[0]);
      ProgramOf(r, canvas, stepsTemplate, lastTemplate) ==
      Ok((name, CanvasAfter(r, Replace(canvas, "PROGRAM_NAME", name), stepsTemplate, lastTemplate, |r.keys|)))
  {
  }

  /** The step of the counter-th key, or `None` where its list is too short
      to hold both filters. */
  method ProgramStep(reg: AssetRegistry, counter: nat, stepsTemplate: string, lastTemplate: string) returns (filled: Option<string>)
    requires 1 <= counter <= |reg.keys|
    ensures filled.None? <==> |Entry(reg.State(), reg.keys[counter - 1])| < 3
    ensures filled.Some? ==> filled.value == FilledStep(reg.State(), counter, stepsTemplate, lastTemplate)
  {
    var assets := reg.Get(reg.keys[counter - 1]);
    if |assets| < 3 {
      return None;
    }
    var template := if counter == |reg.keys| then lastTemplate else stepsTemplate;
    filled := Some(FillSteps(template, reg.keys[counter - 1], counter, assets[1].id, assets[2].id));
  }

  // ---------------------------------------------------------------- the program on the builders' layout

  /** The canvas the program builder must produce for the groups: the k-th
      step holds the k-th group's name and the ids of its own two filters. */
  function GroupCanvas(start: string, groups: seq<(string, string)>, subIds: seq<string>, unsubIds: seq<string>,
                       stepsTemplate: string, lastTemplate: string, j: nat): string
    requires j <= |groups| && |subIds| == |groups| && |unsubIds| == |groups|
  {
    if j == 0 then start
    else
      Replace(GroupCanvas(start, groups, subIds, unsubIds, stepsTemplate, lastTemplate, j - 1), "INSERT_STEPS",
              FillSteps(StepTemplate(j, |groups|, stepsTemplate, lastTemplate), groups[j - 1].0, j, subIds[j - 1], unsubIds[j - 1]))
  }

  /** The registry's k-th key is the k-th group, whose list holds that
      group's subscription and unsubscription filter ids at indices 1 and 2. */
  ghost predicate HoldsFilters(r: Registry, groups: seq<(string, string)>, subIds: seq<string>, unsubIds: seq<string>)
  {
    |r.keys| == |groups| && |subIds| == |groups| && |unsubIds| == |groups| &&
    forall i | 0 <= i < |groups| ::
      r.keys[i] == groups[i].0 && |Entry(r, r.keys[i])| >= 3 &&
      Entry(r, r.keys[i])[1].id == subIds[i] && Entry(r, r.keys[i])[2].id == unsubIds[i]
  }

  lemma {:induction false} CanvasOfGroups(r: Registry, groups: seq<(string, string)>, subIds: seq<string>, unsubIds: seq<string>,
                                          start: string, stepsTemplate: string, lastTemplate: string, j: nat)
    requires HoldsFilters(r, groups, subIds, unsubIds) && j <= |groups|
    ensures CanvasAfter(r, start, stepsTemplate, lastTemplate, j) ==
      GroupCanvas(start, groups, subIds, unsubIds, stepsTemplate, lastTemplate, j)
    decreases j
  {
    if j > 0 {
      CanvasOfGroups(r, groups, subIds, unsubIds, start, stepsTemplate, lastTemplate, j - 1);
    }
  }

  /** On the registry the two builders leave behind, the program builder
      succeeds, names the program after the first group, and fills the k-th
      step with the k-th group and that group's own subscription and
      unsubscription filter ids. */
  lemma ProgramOnLayout(country: string, groups: seq<(string, string)>, formIds: seq<string>, subIds: seq<string>, unsubIds: seq<string>,
                        canvas: string, stepsTemplate: string, lastTemplate: string)
    requires |formIds| == |groups| && |subIds| == |groups| && |unsubIds| == |groups|
    requires |groups| > 0 && DistinctNames(groups)
    ensures var name := ProgramName(groups[0].0);
      ProgramOf(Layout(country, groups, formIds, subIds, unsubIds), canvas, stepsTemplate, lastTemplate) ==
      Ok((name, GroupCanvas(Replace(canvas, "PROGRAM_NAME", name), groups, subIds, unsubIds, stepsTemplate, lastTemplate, |groups|)))
  {
    var r := Layout(country, groups, formIds, subIds, unsubIds);
    LayoutOfGroups(country, groups, formIds, subIds, unsubIds);
    NamesAt(groups, |groups|);
    forall i | 0 <= i < |groups|
      ensures r.keys[i] == groups[i].0 && |Entry(r, r.keys[i])| >= 3
      ensures Entry(r, r.keys[i])[1].id == subIds[i] && Entry(r, r.keys[i])[2].id == unsubIds[i]
    {
      assert Entry(r, groups[i].0) == GroupAssets(country, groups[i], formIds[i], subIds[i], unsubIds[i]);
    }
    assert HoldsFilters(r, groups, subIds, unsubIds);
    assert FirstShort(r, 0) == None;
    var name := ProgramName(groups[0].0);
    CanvasOfGroups(r, groups, subIds, unsubIds, Replace(canvas, "PROGRAM_NAME", name), stepsTemplate, lastTemplate, |groups|);
  }

  // ---------------------------------------------------------------- email_groups

  /** `email_groups` once a country is chosen: a fresh `assets_created`, the
      form builder, the shared-filter builder, then the program builder. On
      distinct, non-empty groups the program is named after the first group
      and its k-th step carries the k-th group's own filter ids. */
  method CreateEmailGroupAssets(formTemplate: string, filterTemplate: string, canvas: string, stepsTemplate: string, lastTemplate: string,
                                country: string, groups: seq<(string, string)>, formFolderId: string, filterFolderId: string,
                                formIds: seq<string>, subIds: seq<string>, unsubIds: seq<string>, programId: string)
    returns (formCalls: seq<(string, string)>, filterCalls: seq<(string, string)>,
             program: Result<(string, string), ProgramError>, assets: Registry)
    requires |formIds| == |groups| && |subIds| == |groups| && |unsubIds| == |groups|
    ensures formCalls == FormCalls(formTemplate, groups, formFolderId, |groups|)
    ensures filterCalls == FilterCalls(filterTemplate, country, groups, filterFolderId, |groups|)
    ensures program == ProgramOf(Layout(country, groups, formIds, subIds, unsubIds), canvas, stepsTemplate, lastTemplate)
    ensures program.Ok? ==> assets == Add(Layout(country, groups, formIds, subIds, unsubIds), "Program", Asset(program.value.0, programId))
    ensures program.Err? ==> assets == Layout(country, groups, formIds, subIds, unsubIds)
    ensures |groups| > 0 && DistinctNames(groups) ==>
      var name := ProgramName(groups[0].0);
      program == Ok((name, GroupCanvas(Replace(canvas, "PROGRAM_NAME", name), groups, subIds, unsubIds, stepsTemplate, lastTemplate, |groups|)))
  {
    var reg := new AssetRegistry();
    formCalls := FormBuilder(reg, formTemplate, groups, formFolderId, formIds);
    filterCalls := SharedFilterBuilder(reg, filterTemplate, country, groups, filterFolderId, subIds, unsubIds);
    assert reg.State() == Layout(country, groups, formIds, subIds, unsubIds);
    program := ProgramBuilder(reg, canvas, stepsTemplate, lastTemplate, programId);
    assets := reg.State();
    if |groups| > 0 && DistinctNames(groups) {
      ProgramOnLayout(country, groups, formIds, subIds, unsubIds, canvas, stepsTemplate, lastTemplate);
    }
  }

  // ---------------------------------------------------------------- choosing the country

  /** One answer to the country prompt: quit, a non-number, a number that
      names no country, or the index of the chosen country. */
  datatype CountryAnswer = Quit | NotNumeric | NoSuchCountry | Chosen(index: nat)

  /** The prompt as written: `parsed` is what `int()` makes of the answer,
      and the bound is the length of the current country code rather than
      the number of countries offered. */
  function CountryChoiceAsWritten(answer: string, parsed: Option<int>, sourceCountry: string): (r: CountryAnswer)
    ensures r.Chosen? ==> r.index < |sourceCountry|
  {
    if answer == "q" || answer == "Q" then Quit
    else match parsed
      case None => NotNumeric
      case Some(c) => if 0 <= c < |sourceCountry| then Chosen(c) else NoSuchCountry
  }

  /** With the country code "PL" and a single country offered, the guard
      lets 1 through, and `countries_list[1]` is out of range. */
  lemma ChoiceAsWrittenOverruns()
    ensures CountryChoiceAsWritten("1", Some(1), "PL") == Chosen(1) && 1 >= |["PL"]|
  {
  }

  /** With the country code "PL" and three countries offered, the guard
      refuses the valid index 2. */
  lemma ChoiceAsWrittenRefusesValid()
    ensures CountryChoiceAsWritten("2", Some(2), "PL") == NoSuchCountry && 2 < |["DE", "FR", "PL"]|
  {
  }

  /** The prompt bounded by the countries offered: a chosen index always
      names one of them, and every index of one of them is accepted. */
  function CountryChoice(answer: string, parsed: Option<int>, countries: seq<string>): (r: CountryAnswer)
    ensures r.Chosen? ==> r.index < |countries| && parsed == Some(r.index as int)
    ensures answer != "q" && answer != "Q" && parsed.Some? && 0 <= parsed.value < |countries| ==> r == Chosen(parsed.value)
    ensures answer != "q" && answer != "Q" && parsed.Some? && !(0 <= parsed.value < |countries|) ==> r == NoSuchCountry
  {
    if answer == "q" || answer == "Q" then Quit
    else match parsed
      case None => NotNumeric
      case Some(c) => if 0 <= c < |countries| then Chosen(c) else NoSuchCountry
  }
}
