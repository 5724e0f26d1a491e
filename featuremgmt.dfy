/** The feature-flag manager: a name-keyed table of flag definitions, merged
    field by field as definitions arrive, and the set of flags that are on,
    rebuilt from the table whenever it changes. */
module FeatureMgmt {
  import opened Wrappers

  // ---------------------------------------------------------------------------
  // Flag definitions
  // ---------------------------------------------------------------------------

  /** A flag's release stage. `FeatureStageUnknown` is the zero value, which a
      definition carries when it does not say; the other stages are told apart
      by their name. */
  datatype FeatureStage = FeatureStageUnknown | FeatureStageKnown(stageName: string)

  /** A flag definition, with the fields the manager reads and writes. */
  datatype FeatureFlag = FeatureFlag(
    name: string,
    description: string,
    docsURL: string,
    expression: string,
    stage: FeatureStage,
    requiresDevMode: bool,
    requiresLicense: bool,
    requiresRestart: bool,
    enabled: bool)

  /** Go's `FeatureFlag{}`. */
  const ZeroFlag := FeatureFlag("", "", "", "", FeatureStageUnknown, false, false, false, false)

  /** The flag table: every entry is stored under its own name. */
  predicate KeyedByName(flags: map<string, FeatureFlag>) {
    forall k :: k in flags ==> flags[k].name == k
  }

  /** A non-empty given text replaces the current one. */
  function Override(current: string, given: string): string {
    if given != "" then given else current
  }

  /** A known given stage replaces the current one. */
  function OverrideStage(current: FeatureStage, given: FeatureStage): FeatureStage {
    if given != FeatureStageUnknown then given else current
  }

  /** Merges the definition `add` into the known flag `flag`: a non-empty
      description, docs URL or expression replaces the old one, a known stage
      replaces the old stage, and each requirement is set once either side
      sets it. Name and value stay as they were. */
  function Merge(flag: FeatureFlag, add: FeatureFlag): (r: FeatureFlag)
    ensures r.name == flag.name && r.enabled == flag.enabled
    ensures add.description != "" ==> r.description == add.description
    ensures add.description == "" ==> r.description == flag.description
    ensures add.docsURL != "" ==> r.docsURL == add.docsURL
    ensures add.docsURL == "" ==> r.docsURL == flag.docsURL
    ensures add.expression != "" ==> r.expression == add.expression
    ensures add.expression == "" ==> r.expression == flag.expression
    ensures add.stage != FeatureStageUnknown ==> r.stage == add.stage
    ensures add.stage == FeatureStageUnknown ==> r.stage == flag.stage
    ensures r.requiresDevMode <==> flag.requiresDevMode || add.requiresDevMode
    ensures r.requiresLicense <==> flag.requiresLicense || add.requiresLicense
    ensures r.requiresRestart <==> flag.requiresRestart || add.requiresRestart
  {
    FeatureFlag(
      name := flag.name,
      description := Override(flag.description, add.description),
      docsURL := Override(flag.docsURL, add.docsURL),
      expression := Override(flag.expression, add.expression),
      stage := OverrideStage(flag.stage, add.stage),
      requiresDevMode := flag.requiresDevMode || add.requiresDevMode,
      requiresLicense := flag.requiresLicense || add.requiresLicense,
      requiresRestart := flag.requiresRestart || add.requiresRestart,
      enabled := flag.enabled)
  }

  /** Merges `add` into `flag` one field at a time. */
  method MergeInto(flag0: FeatureFlag, add: FeatureFlag) returns (flag: FeatureFlag)
    ensures flag == Merge(flag0, add)
  {
    flag := flag0;
    if add.description != "" {
      flag := flag.(description := add.description);
    }
    if add.docsURL != "" {
      flag := flag.(docsURL := add.docsURL);
    }
    if add.expression != "" {
      flag := flag.(expression := add.expression);
    }
    if add.stage != FeatureStageUnknown {
      flag := flag.(stage := add.stage);
    }
    if add.requiresDevMode {
      flag := flag.(requiresDevMode := true);
    }
    if add.requiresLicense {
      flag := flag.(requiresLicense := true);
    }
    if add.requiresRestart {
      flag := flag.(requiresRestart := true);
    }
    ghost var r := Merge(flag0, add);
    assert flag.name == r.name && flag.enabled == r.enabled;
    assert flag.description == r.description && flag.docsURL == r.docsURL && flag.expression == r.expression;
    assert flag.stage == r.stage;
    assert flag.requiresDevMode == r.requiresDevMode && flag.requiresLicense == r.requiresLicense && flag.requiresRestart == r.requiresRestart;
  }

  /** Registers one definition: an unnamed one is ignored, an unseen name is
      stored as given, and a known name is merged into its entry. */
  function Register(flags: map<string, FeatureFlag>, add: FeatureFlag): map<string, FeatureFlag> {
    if add.name == "" then flags
    else if add.name !in flags then flags[add.name := add]
    else flags[add.name := Merge(flags[add.name], add)]
  }

  /** Registers the definitions `adds` from first to last. */
  function RegisterAll(flags: map<string, FeatureFlag>, adds: seq<FeatureFlag>): map<string, FeatureFlag> {
    if adds == [] then flags
    else Register(RegisterAll(flags, adds[..|adds| - 1]), adds[|adds| - 1])
  }

  /** The names `adds` registers: every non-empty one. */
  function NamesOf(adds: seq<FeatureFlag>): set<string> {
    set i | 0 <= i < |adds| && adds[i].name != "" :: adds[i].name
  }

  lemma RegisterSkipsUnnamed(flags: map<string, FeatureFlag>, add: FeatureFlag)
    requires add.name == ""
    ensures Register(flags, add) == flags
  {
  }

  lemma RegisterInsertsUnseen(flags: map<string, FeatureFlag>, add: FeatureFlag)
    requires add.name != "" && add.name !in flags
    ensures Register(flags, add) == flags[add.name := add]
  {
  }

  /** Registering touches the entry of the definition's name and no other. */
  lemma RegisterTouchesOnlyItsName(flags: map<string, FeatureFlag>, add: FeatureFlag, k: string)
    requires k != add.name
    ensures k in Register(flags, add) <==> k in flags
    ensures k in flags ==> Register(flags, add)[k] == flags[k]
  {
  }

  /** Registering the same definition a second time changes nothing: the
      merge replaces each field only with what the first registration
      already stored. */
  lemma RegisterTwice(flags: map<string, FeatureFlag>, add: FeatureFlag)
    ensures Register(Register(flags, add), add) == Register(flags, add)
  {
  }

  /** Registering keeps every entry under its own name. */
  lemma {:induction false} RegisterAllKeyedByName(flags: map<string, FeatureFlag>, adds: seq<FeatureFlag>)
    requires KeyedByName(flags)
    ensures KeyedByName(RegisterAll(flags, adds))
  {
    if adds != [] {
      RegisterAllKeyedByName(flags, adds[..|adds| - 1]);
    }
  }

  /** After registering, the table holds the old names and every non-empty
      name of the definitions, and nothing else. */
  lemma {:induction false} RegisterAllKeys(flags: map<string, FeatureFlag>, adds: seq<FeatureFlag>)
    ensures RegisterAll(flags, adds).Keys == flags.Keys + NamesOf(adds)
  {
    if adds != [] {
      var init := adds[..|adds| - 1];
      RegisterAllKeys(flags, init);
      var last := adds[|adds| - 1];
      assert NamesOf(adds) == NamesOf(init) + (if last.name == "" then {} else {last.name}) by {
        forall n | n in NamesOf(adds) ensures n in NamesOf(init) + (if last.name == "" then {} else {last.name}) {
          var i :| 0 <= i < |adds| && adds[i].name != "" && adds[i].name == n;
          if i < |adds| - 1 {
            assert init[i] == adds[i];
          }
        }
        forall n | n in NamesOf(init) ensures n in NamesOf(adds) {
          var i :| 0 <= i < |init| && init[i].name != "" && init[i].name == n;
          assert adds[i] == init[i];
        }
      }
    }
  }

  /** An entry no definition names is left exactly as it was. */
  lemma {:induction false} RegisterAllUntouched(flags: map<string, FeatureFlag>, adds: seq<FeatureFlag>, k: string)
    requires k in flags
    requires forall i :: 0 <= i < |adds| ==> adds[i].name != k
    ensures k in RegisterAll(flags, adds) && RegisterAll(flags, adds)[k] == flags[k]
  {
    if adds != [] {
      var init := adds[..|adds| - 1];
      assert forall i :: 0 <= i < |init| ==> init[i].name != k by {
        forall i | 0 <= i < |init| ensures init[i].name != k {
          assert init[i] == adds[i];
        }
      }
      RegisterAllUntouched(flags, init, k);
    }
  }

  /** Requirements only ever get more restrictive: a requirement an entry has
      before registering, it still has after. */
  lemma {:induction false} RegisterAllKeepsRequirements(flags: map<string, FeatureFlag>, adds: seq<FeatureFlag>, k: string)
    requires k in flags
    ensures k in RegisterAll(flags, adds)
    ensures flags[k].requiresDevMode ==> RegisterAll(flags, adds)[k].requiresDevMode
    ensures flags[k].requiresLicense ==> RegisterAll(flags, adds)[k].requiresLicense
    ensures flags[k].requiresRestart ==> RegisterAll(flags, adds)[k].requiresRestart
  {
    if adds != [] {
      RegisterAllKeepsRequirements(flags, adds[..|adds| - 1], k);
    }
  }

  /** A definition whose name is new and that no later definition names
      again ends up in the table exactly as given. */
  lemma {:induction false} RegisterAllKeepsLoneDefinition(flags: map<string, FeatureFlag>, adds: seq<FeatureFlag>, i: nat)
    requires i < |adds| && adds[i].name != "" && adds[i].name !in flags
    requires forall j :: 0 <= j < |adds| && j != i ==> adds[j].name != adds[i].name
    ensures adds[i].name in RegisterAll(flags, adds) && RegisterAll(flags, adds)[adds[i].name] == adds[i]
  {
    var init := adds[..|adds| - 1];
    if i == |adds| - 1 {
      forall j | 0 <= j < |init| ensures init[j].name != adds[i].name {
        assert init[j] == adds[j];
      }
      RegisterAllKeys(flags, init);
    } else {
      assert init[i] == adds[i];
      forall j | 0 <= j < |init| && j != i ensures init[j].name != init[i].name {
        assert init[j] == adds[j];
      }
      RegisterAllKeepsLoneDefinition(flags, init, i);
    }
  }

  // ---------------------------------------------------------------------------
  // The manager
  // ---------------------------------------------------------------------------

  /** The manager. `licensing` is the licence service, absent when there is
      none; `FeatureEnabled(name)` is `licensing.value(name)`. */
  class FeatureManager {
    const isDevMod: bool
    const licensing: Option<string -> bool>
    var flags: map<string, FeatureFlag>
    var enabled: map<string, bool>

    /** Every flag is stored under its name and only known flags can be on. */
    predicate Valid()
      reads this
    {
      KeyedByName(flags) && enabled.Keys <= flags.Keys
    }

    /** The server can run `ff`: dev mode is on if the flag needs it, and a
        licence service exists and enables it if the flag needs a licence. */
    predicate MeetsRequirements(ff: FeatureFlag) {
      && !(ff.requiresDevMode && !isDevMod)
      && !(ff.requiresLicense && (licensing.None? || !licensing.value(ff.name)))
    }

    /** A flag is turned on by `update` when the server can run it and its
        expression is non-empty and evaluates to true. `eval` stands for the
        expression engine evaluating an expression over the configured
        variables. */
    predicate TurnsOn(ff: FeatureFlag, eval: string -> bool) {
      MeetsRequirements(ff) && ff.expression != "" && eval(ff.expression)
    }

    /** The flags among `keys` that `update` turns on, all mapped to true. */
    function EnabledAmong(table: map<string, FeatureFlag>, keys: set<string>, eval: string -> bool): map<string, bool> {
      map k | k in keys && k in table && TurnsOn(table[k], eval) :: true
    }

    /** What `update` leaves in `enabled` for the table `table`. */
    function EnabledAfterUpdate(table: map<string, FeatureFlag>, eval: string -> bool): (r: map<string, bool>)
      ensures forall k :: k in r <==> k in table && TurnsOn(table[k], eval)
      ensures forall k :: k in r ==> r[k]
    {
      EnabledAmong(table, table.Keys, eval)
    }

    /** Rebuilds `enabled` from the flag table. */
    method Update(eval: string -> bool)
      requires Valid()
      modifies this
      ensures Valid()
      ensures flags == old(flags)
      ensures enabled == EnabledAfterUpdate(flags, eval)
    {
      var en: map<string, bool> := map[];
      var remaining := flags.Keys;
      while remaining != {}
        invariant remaining <= flags.Keys
        invariant en == EnabledAmong(flags, flags.Keys - remaining, eval)
        decreases |remaining|
      {
        var k :| k in remaining;
        var flag := flags[k];
        if TurnsOn(flag, eval) {
          en := en[flag.name := true];
        }
        remaining := remaining - {k};
      }
      enabled := en;
    }

    /** Registers `adds` from first to last, field by field, then rebuilds
        `enabled`. */
    method RegisterFlags(adds: seq<FeatureFlag>, eval: string -> bool)
      requires Valid()
      modifies this
      ensures Valid()
      ensures flags == RegisterAll(old(flags), adds)
      ensures enabled == EnabledAfterUpdate(flags, eval)
    {
      ghost var flags0 := flags;
      for i := 0 to |adds|
        invariant flags == RegisterAll(flags0, adds[..i])
        invariant KeyedByName(flags) && enabled.Keys <= flags.Keys
      {
        assert adds[..i + 1][..i] == adds[..i];
        var add := adds[i];
        if add.name != "" {
          if add.name !in flags {
            flags := flags[add.name := add];
          } else {
            var flag := MergeInto(flags[add.name], add);
            flags := flags[add.name := flag];
          }
        }
      }
      assert adds[..|adds|] == adds;
      Update(eval);
    }

    /** Whether `name` is on; false for a name `enabled` does not hold. */
    predicate IsEnabled(name: string)
      reads this
    {
      name in enabled && enabled[name]
    }

    /** The names that are on, each mapped to true. */
    method GetEnabled() returns (r: map<string, bool>)
      ensures forall k :: k in r <==> IsEnabled(k)
      ensures forall k :: k in r ==> r[k]
    {
      r := map[];
      var remaining := enabled.Keys;
      while remaining != {}
        invariant remaining <= enabled.Keys
        invariant forall k :: k in r <==> k in enabled.Keys - remaining && enabled[k]
        invariant forall k :: k in r ==> r[k]
        decreases |remaining|
      {
        var k :| k in remaining;
        if enabled[k] {
          r := r[k := true];
        }
        remaining := remaining - {k};
      }
    }

    /** Every flag definition once, in no particular order. */
    method GetFlags() returns (r: seq<FeatureFlag>)
      requires Valid()
      ensures |r| == |flags|
      ensures forall i :: 0 <= i < |r| ==> r[i].name in flags && flags[r[i].name] == r[i]
      ensures forall k :: k in flags ==> exists i :: 0 <= i < |r| && r[i] == flags[k]
      ensures forall i, j :: 0 <= i < j < |r| ==> r[i].name != r[j].name
    {
      r := [];
      var remaining := flags.Keys;
      while remaining != {}
        invariant remaining <= flags.Keys
        invariant |r| + |remaining| == |flags.Keys|
        invariant Listed(flags, flags.Keys - remaining, r)
        decreases |remaining|
      {
        var k :| k in remaining;
        ListedStep(flags, flags.Keys - remaining, r, k);
        r := r + [flags[k]];
        assert flags.Keys - (remaining - {k}) == (flags.Keys - remaining) + {k};
        remaining := remaining - {k};
      }
    }

    /** The definition stored under `name` and true, or the zero definition
        and false when there is none. */
    function LookupFlag(name: string): (r: (FeatureFlag, bool))
      reads this
      ensures r.1 <==> name in flags
      ensures r.1 ==> r.0 == flags[name]
      ensures !r.1 ==> r.0 == ZeroFlag
    {
      if name in flags then (flags[name], true) else (ZeroFlag, false)
    }

    /** The manager `WithFeatures(spec...)` builds for tests: one flag per key
        of `spec`, and on every key that some occurrence sets to true. */
    constructor WithFeatures(spec: seq<SpecItem>)
      ensures Valid()
      ensures !isDevMod && licensing.None?
      ensures flags == FeaturesOf(Entries(spec))
      ensures enabled == EnabledOf(Entries(spec))
    {
      var features, en := ReadFeatures(spec);
      FeaturesOfValid(Entries(spec));
      isDevMod := false;
      licensing := None;
      flags := features;
      enabled := en;
    }

    /** The manager `WithFeatureFlags(flags)` builds for tests: the definitions
        with a non-empty name, stored as given, and each one's own value
        recorded in `enabled`. */
    constructor WithFeatureFlags(defs: seq<FeatureFlag>)
      ensures Valid()
      ensures !isDevMod && licensing.None?
      ensures flags == DefsTable(defs)
      ensures enabled == DefsEnabled(defs)
    {
      var features: map<string, FeatureFlag> := map[];
      var en: map<string, bool> := map[];
      for i := 0 to |defs|
        invariant features == DefsTable(defs[..i]) && en == DefsEnabled(defs[..i])
      {
        assert defs[..i + 1][..i] == defs[..i];
        var f := defs[i];
        if f.name != "" {
          features := features[f.name := f];
          en := en[f.name := f.enabled];
        }
      }
      assert defs[..|defs|] == defs;
      DefsTableValid(defs);
      isDevMod := false;
      licensing := None;
      flags := features;
      enabled := en;
    }
  }

  /** `r` lists the definitions of the names `done`, each exactly once. */
  predicate Listed(table: map<string, FeatureFlag>, done: set<string>, r: seq<FeatureFlag>) {
    && (forall i :: 0 <= i < |r| ==> r[i].name in done && r[i].name in table && table[r[i].name] == r[i])
    && (forall k :: k in done ==> k in table && exists i :: 0 <= i < |r| && r[i] == table[k])
    && (forall i, j :: 0 <= i < j < |r| ==> r[i].name != r[j].name)
  }

  /** Listing one more name's definition keeps the listing exact. */
  lemma ListedStep(table: map<string, FeatureFlag>, done: set<string>, r: seq<FeatureFlag>, k: string)
    requires KeyedByName(table) && Listed(table, done, r)
    requires k in table && k !in done
    ensures Listed(table, done + {k}, r + [table[k]])
  {
    var r' := r + [table[k]];
    forall k' | k' in done + {k}
      ensures k' in table && exists i :: 0 <= i < |r'| && r'[i] == table[k']
    {
      if k' == k {
        assert r'[|r|] == table[k];
      } else {
        var i :| 0 <= i < |r| && r[i] == table[k'];
        assert r'[i] == r[i];
      }
    }
    forall i, j | 0 <= i < j < |r'| ensures r'[i].name != r'[j].name {
      if j == |r| {
        assert r'[i] == r[i];
      } else {
        assert r'[i] == r[i] && r'[j] == r[j];
      }
    }
  }

  // ---------------------------------------------------------------------------
  // The manager and its requirements
  // ---------------------------------------------------------------------------

  /** `meetsRequirements` in both directions: a flag fails exactly when it
      needs dev mode and dev mode is off, or needs a licence and there is no
      licence service or the service does not enable it. */
  lemma MeetsRequirementsCases(fm: FeatureManager, ff: FeatureFlag)
    ensures !fm.MeetsRequirements(ff) <==>
      (ff.requiresDevMode && !fm.isDevMod) ||
      (ff.requiresLicense && (fm.licensing.None? || !fm.licensing.value(ff.name)))
  {
  }

  /** Merging never relaxes requirements, so a merged flag the server can run
      is one it could already run. */
  lemma MergeNeverRelaxes(fm: FeatureManager, flag: FeatureFlag, add: FeatureFlag)
    ensures fm.MeetsRequirements(Merge(flag, add)) ==> fm.MeetsRequirements(flag)
  {
  }

  /** Across any registrations, a flag the server cannot run stays one it
      cannot run. */
  lemma RegisterAllNeverRelaxes(fm: FeatureManager, flags: map<string, FeatureFlag>, adds: seq<FeatureFlag>, k: string)
    requires KeyedByName(flags) && k in flags
    requires !fm.MeetsRequirements(flags[k])
    ensures k in RegisterAll(flags, adds) && !fm.MeetsRequirements(RegisterAll(flags, adds)[k])
  {
    RegisterAllKeepsRequirements(flags, adds, k);
    RegisterAllKeyedByName(flags, adds);
  }

  /** After `update`, a flag known to the table is on exactly when the server
      can run it and its non-empty expression evaluates to true; a name the
      table does not know is off. */
  lemma UpdateTurnsOnExactly(fm: FeatureManager, eval: string -> bool, name: string)
    requires fm.enabled == fm.EnabledAfterUpdate(fm.flags, eval)
    ensures fm.IsEnabled(name) <==>
      name in fm.flags && fm.MeetsRequirements(fm.flags[name]) &&
      fm.flags[name].expression != "" && eval(fm.flags[name].expression)
    ensures name !in fm.flags ==> !fm.IsEnabled(name)
  {
  }

  /** A valid manager never reports an unknown name as on. */
  lemma UnknownIsDisabled(fm: FeatureManager, name: string)
    requires fm.Valid() && name !in fm.flags
    ensures !fm.IsEnabled(name)
  {
  }

  // ---------------------------------------------------------------------------
  // WithFeatures
  // ---------------------------------------------------------------------------

  /** One argument of `WithFeatures`: a bool, or any other value, given by the
      text Go's `%v` prints for it. */
  datatype SpecItem = BoolItem(b: bool) | ValueItem(text: string)

  /** The flag name an argument in key position stands for. */
  function ItemKey(it: SpecItem): string {
    match it
    case BoolItem(b) => if b then "true" else "false"
    case ValueItem(t) => t
  }

  /** How `WithFeatures` reads its arguments: each key is followed by an
      optional bool, its value, which defaults to true. */
  function Entries(spec: seq<SpecItem>): seq<(string, bool)>
    decreases |spec|
  {
    if spec == [] then []
    else if |spec| > 1 && spec[1].BoolItem? then [(ItemKey(spec[0]), spec[1].b)] + Entries(spec[2..])
    else [(ItemKey(spec[0]), true)] + Entries(spec[1..])
  }

  /** One step of the argument reader, from position `at`. */
  lemma EntriesStep(spec: seq<SpecItem>, at: nat)
    requires at < |spec|
    ensures at + 1 < |spec| && spec[at + 1].BoolItem? ==>
      Entries(spec[at..]) == [(ItemKey(spec[at]), spec[at + 1].b)] + Entries(spec[at + 2..])
    ensures !(at + 1 < |spec| && spec[at + 1].BoolItem?) ==>
      Entries(spec[at..]) == [(ItemKey(spec[at]), true)] + Entries(spec[at + 1..])
  {
    var s := spec[at..];
    assert s[0] == spec[at];
    if |s| > 1 {
      assert s[1] == spec[at + 1];
      assert s[2..] == spec[at + 2..];
    }
    assert s[1..] == spec[at + 1..];
  }

  /** The argument loop of `WithFeatures`: reads the key/value pairs of
      `spec` left to right, defining one flag per key and turning on every
      key read with the value true. */
  method ReadFeatures(spec: seq<SpecItem>) returns (features: map<string, FeatureFlag>, en: map<string, bool>)
    ensures features == FeaturesOf(Entries(spec))
    ensures en == EnabledOf(Entries(spec))
  {
    features := map[];
    en := map[];
    ghost var done: seq<(string, bool)> := [];
    var idx := 0;
    while idx < |spec|
      invariant 0 <= idx <= |spec|
      invariant Entries(spec) == done + Entries(spec[idx..])
      invariant features == FeaturesOf(done) && en == EnabledOf(done)
      decreases |spec| - idx
    {
      ghost var at := idx;
      var key := ItemKey(spec[idx]);
      var val := true;
      idx := idx + 1;
      if idx < |spec| && spec[idx].BoolItem? {
        val := spec[idx].b;
        idx := idx + 1;
      }
      EntriesStep(spec, at);
      Associative(done, [(key, val)], Entries(spec[idx..]));
      features := features[key := ZeroFlag.(name := key, enabled := val)];
      if val {
        en := en[key := true];
      }
      ReadStep(done, key, val);
      done := done + [(key, val)];
    }
    assert spec[|spec|..] == [];
    assert done + [] == done;
  }

  /** Reading one more entry updates the flags and the values turned on. */
  lemma ReadStep(done: seq<(string, bool)>, key: string, val: bool)
    ensures FeaturesOf(done + [(key, val)]) == FeaturesOf(done)[key := ZeroFlag.(name := key, enabled := val)]
    ensures EnabledOf(done + [(key, val)]) == if val then EnabledOf(done)[key := true] else EnabledOf(done)
  {
    assert (done + [(key, val)])[..|done|] == done;
  }

  /** The flags the entries define: one per key, holding the key's last value. */
  function FeaturesOf(es: seq<(string, bool)>): map<string, FeatureFlag> {
    if es == [] then map[]
    else
      var last := es[|es| - 1];
      FeaturesOf(es[..|es| - 1])[last.0 := ZeroFlag.(name := last.0, enabled := last.1)]
  }

  /** The keys turned on: every key that some entry sets to true. */
  function EnabledOf(es: seq<(string, bool)>): map<string, bool> {
    if es == [] then map[]
    else
      var last := es[|es| - 1];
      var m := EnabledOf(es[..|es| - 1]);
      if last.1 then m[last.0 := true] else m
  }

  lemma {:induction false} FeaturesOfValid(es: seq<(string, bool)>)
    ensures KeyedByName(FeaturesOf(es))
    ensures EnabledOf(es).Keys <= FeaturesOf(es).Keys
  {
    if es != [] {
      FeaturesOfValid(es[..|es| - 1]);
    }
  }

  /** Every argument that is not a bool is a key, and its value is the bool
      right after it, or true when none follows. */
  lemma {:induction false} EveryValueIsAKey(spec: seq<SpecItem>, i: nat)
    requires i < |spec| && spec[i].ValueItem?
    ensures (spec[i].text, if i + 1 < |spec| && spec[i + 1].BoolItem? then spec[i + 1].b else true) in Entries(spec)
  {
    if i > 0 {
      if |spec| > 1 && spec[1].BoolItem? {
        assert i >= 2;
        assert spec[2..][i - 2] == spec[i];
        if i - 1 < |spec[2..]| {
          assert spec[2..][i - 1] == spec[i + 1];
        }
        EveryValueIsAKey(spec[2..], i - 2);
      } else {
        assert spec[1..][i - 1] == spec[i];
        if i < |spec[1..]| {
          assert spec[1..][i] == spec[i + 1];
        }
        EveryValueIsAKey(spec[1..], i - 1);
      }
    }
  }

  /** A key is on exactly when some entry sets it to true, even if a later
      entry sets it to false; every value held is true. */
  lemma {:induction false} EnabledOfSomeTrue(es: seq<(string, bool)>, k: string)
    ensures k in EnabledOf(es) <==> exists i :: 0 <= i < |es| && es[i] == (k, true)
    ensures k in EnabledOf(es) ==> EnabledOf(es)[k]
  {
    if es != [] {
      var init := es[..|es| - 1];
      EnabledOfSomeTrue(init, k);
      if exists i :: 0 <= i < |init| && init[i] == (k, true) {
        var i :| 0 <= i < |init| && init[i] == (k, true);
        assert es[i] == init[i];
      }
      if exists i :: 0 <= i < |es| && es[i] == (k, true) {
        var i :| 0 <= i < |es| && es[i] == (k, true);
        if i < |init| {
          assert init[i] == es[i];
        }
      }
    }
  }

  /** A key's flag holds the value of the key's last entry. */
  lemma {:induction false} FeaturesOfLastWins(es: seq<(string, bool)>, j: nat)
    requires j < |es|
    requires forall l :: j < l < |es| ==> es[l].0 != es[j].0
    ensures es[j].0 in FeaturesOf(es)
    ensures FeaturesOf(es)[es[j].0] == ZeroFlag.(name := es[j].0, enabled := es[j].1)
  {
    var init := es[..|es| - 1];
    if j < |es| - 1 {
      assert init[j] == es[j];
      forall l | j < l < |init| ensures init[l].0 != init[j].0 {
        assert init[l] == es[l];
      }
      FeaturesOfLastWins(init, j);
    }
  }

  /** The table holds exactly the keys of the entries. */
  lemma {:induction false} FeaturesOfKeys(es: seq<(string, bool)>, k: string)
    ensures k in FeaturesOf(es) <==> exists i :: 0 <= i < |es| && es[i].0 == k
  {
    if es != [] {
      var init := es[..|es| - 1];
      FeaturesOfKeys(init, k);
      if exists i :: 0 <= i < |init| && init[i].0 == k {
        var i :| 0 <= i < |init| && init[i].0 == k;
        assert es[i] == init[i];
      }
      if exists i :: 0 <= i < |es| && es[i].0 == k {
        var i :| 0 <= i < |es| && es[i].0 == k;
        if i < |init| {
          assert init[i] == es[i];
        }
      }
    }
  }

  /** `WithFeatures("a", true, "a", false)`: the flag `a` ends with value
      false, yet `a` stays on, because a later false never removes a key. */
  lemma WithFeaturesKeepsEarlierTrue()
    ensures var es := Entries([ValueItem("a"), BoolItem(true), ValueItem("a"), BoolItem(false)]);
      FeaturesOf(es)["a"].enabled == false && "a" in EnabledOf(es)
  {
    var spec := [ValueItem("a"), BoolItem(true), ValueItem("a"), BoolItem(false)];
    assert spec[2..][2..] == [];
    assert Entries(spec) == [("a", true), ("a", false)];
  }

  // ---------------------------------------------------------------------------
  // WithFeatureFlags
  // ---------------------------------------------------------------------------

  /** The table `WithFeatureFlags` builds: each named definition stored as
      given, a later one replacing an earlier one of the same name. */
  function DefsTable(defs: seq<FeatureFlag>): map<string, FeatureFlag> {
    if defs == [] then map[]
    else
      var f := defs[|defs| - 1];
      var m := DefsTable(defs[..|defs| - 1]);
      if f.name == "" then m else m[f.name := f]
  }

  /** The values `WithFeatureFlags` records: each named definition's own. */
  function DefsEnabled(defs: seq<FeatureFlag>): map<string, bool> {
    if defs == [] then map[]
    else
      var f := defs[|defs| - 1];
      var m := DefsEnabled(defs[..|defs| - 1]);
      if f.name == "" then m else m[f.name := f.enabled]
  }

  /** The table is keyed by name, never holds the empty name, and records for
      each name exactly the value its stored definition carries. */
  lemma {:induction false} DefsTableValid(defs: seq<FeatureFlag>)
    ensures KeyedByName(DefsTable(defs))
    ensures "" !in DefsTable(defs)
    ensures DefsEnabled(defs).Keys == DefsTable(defs).Keys
    ensures forall k :: k in DefsEnabled(defs) ==> DefsEnabled(defs)[k] == DefsTable(defs)[k].enabled
  {
    if defs != [] {
      DefsTableValid(defs[..|defs| - 1]);
    }
  }

  /** A name's entry is the last definition carrying it. */
  lemma {:induction false} DefsTableLastWins(defs: seq<FeatureFlag>, j: nat)
    requires j < |defs| && defs[j].name != ""
    requires forall l :: j < l < |defs| ==> defs[l].name != defs[j].name
    ensures defs[j].name in DefsTable(defs) && DefsTable(defs)[defs[j].name] == defs[j]
  {
    var init := defs[..|defs| - 1];
    if j < |defs| - 1 {
      assert init[j] == defs[j];
      forall l | j < l < |init| ensures init[l].name != init[j].name {
        assert init[l] == defs[l];
      }
      DefsTableLastWins(init, j);
    }
  }
}
