/**
 * Filling in the configuration with defaults (`ensure_config`). The configuration is a map
 * from section name to a map from option name to option text.
 */
module Config {

  type Sections = map<string, map<string, string>>

  /** One default: the option of a section and the text it gets when it is not set. */
  datatype DefaultOption = DefaultOption(section: string, option: string, value: string)

  /** The defaults `ensure_config` sets, in the order it sets them. */
  const DefaultOptions: seq<DefaultOption> := [
    DefaultOption("Login", "api_token", "YOUR_API_TOKEN"),
    DefaultOption("Settings", "heart_rate_file", "heart_rate.txt"),
    DefaultOption("Settings", "polling_interval", "0.5"),
    DefaultOption("Settings", "smoothing_interval", "10"),
    DefaultOption("Settings", "base_multiplier", "1.0"),
    DefaultOption("Settings", "ramping_mode", "True"),
    DefaultOption("Settings", "ramping_max_multiplier", "3.0"),
    DefaultOption("Settings", "seconds_till_max_ramping", "360")]

  /** The sections `ensure_config` always creates. */
  const RequiredSections: set<string> := {"Login", "Settings"}

  /** No option appears twice in the table, and every one belongs to a required section. */
  lemma DefaultOptionsWellFormed()
    ensures forall i :: 0 <= i < |DefaultOptions| ==> DefaultOptions[i].section in RequiredSections
    ensures forall i, j :: 0 <= i < j < |DefaultOptions| ==>
      DefaultOptions[i].section != DefaultOptions[j].section || DefaultOptions[i].option != DefaultOptions[j].option
  {
  }

  /** `d` with the option of `e` set to its text, adding its section when missing. */
  function Put(d: Sections, e: DefaultOption): Sections
  {
    d[e.section := (if e.section in d then d[e.section] else map[])[e.option := e.value]]
  }

  /** The required sections, empty, with the options of `entries` added in order. */
  function DefaultsOf(entries: seq<DefaultOption>): (d: Sections)
    ensures RequiredSections <= d.Keys
    ensures forall s :: s in d ==> s in RequiredSections || exists j :: 0 <= j < |entries| && entries[j].section == s
    ensures forall s, k :: s in d && k in d[s] ==> exists j :: 0 <= j < |entries| && entries[j].section == s && entries[j].option == k
  {
    if entries == [] then map s | s in RequiredSections :: map[]
    else
      Put(DefaultsOf(entries[..|entries| - 1]), entries[|entries| - 1])
  }

  /** No two entries set the same option of the same section. */
  predicate DistinctOptions(entries: seq<DefaultOption>)
  {
    forall i, j :: 0 <= i < j < |entries| ==>
      entries[i].section != entries[j].section || entries[i].option != entries[j].option
  }

  /** When no option is set twice, every entry is found in the defaults with its own text. */
  lemma DefaultsOfHoldsEntries(entries: seq<DefaultOption>)
    requires DistinctOptions(entries)
    ensures var d := DefaultsOf(entries);
      forall j :: 0 <= j < |entries| ==>
        entries[j].section in d && entries[j].option in d[entries[j].section]
        && d[entries[j].section][entries[j].option] == entries[j].value
  {
    forall j | 0 <= j < |entries|
      ensures var d := DefaultsOf(entries);
        entries[j].section in d && entries[j].option in d[entries[j].section]
        && d[entries[j].section][entries[j].option] == entries[j].value
    {
      DefaultsOfHoldsEntry(entries, j);
    }
  }

  lemma DistinctPrefix(entries: seq<DefaultOption>)
    requires DistinctOptions(entries) && entries != []
    ensures DistinctOptions(entries[..|entries| - 1])
  {
    var prefix := entries[..|entries| - 1];
    assert forall i :: 0 <= i < |prefix| ==> prefix[i] == entries[i];
  }

  /** Setting an option leaves every other option's text as it was. */
  lemma PutKeeps(d: Sections, e: DefaultOption, x: DefaultOption)
    requires x.section in d && x.option in d[x.section]
    requires x.section != e.section || x.option != e.option
    ensures var r := Put(d, e);
      x.section in r && x.option in r[x.section] && r[x.section][x.option] == d[x.section][x.option]
  {
  }

  /** The entry at `j` survives every later entry, since none of them sets the same option. */
  lemma {:induction false} DefaultsOfHoldsEntry(entries: seq<DefaultOption>, j: nat)
    requires DistinctOptions(entries) && j < |entries|
    ensures var d := DefaultsOf(entries);
      entries[j].section in d && entries[j].option in d[entries[j].section]
      && d[entries[j].section][entries[j].option] == entries[j].value
    decreases |entries|
  {
    var x := entries[j];
    var e := entries[|entries| - 1];
    if j < |entries| - 1 {
      var prefix := entries[..|entries| - 1];
      DistinctPrefix(entries);
      assert prefix[j] == x;
      DefaultsOfHoldsEntry(prefix, j);
      var before := DefaultsOf(prefix);
      assert DefaultsOf(entries) == Put(before, e);
      PutKeeps(before, e, x);
    }
  }

  /** The defaults by section and option. */
  const Defaults: Sections := DefaultsOf(DefaultOptions)

  /** Each of the eight defaults is found in `Defaults` with its text. */
  lemma DefaultsHoldTable()
    ensures forall i :: 0 <= i < |DefaultOptions| ==>
      DefaultOptions[i].section in Defaults && DefaultOptions[i].option in Defaults[DefaultOptions[i].section]
      && Defaults[DefaultOptions[i].section][DefaultOptions[i].option] == DefaultOptions[i].value
  {
    DefaultOptionsWellFormed();
    DefaultsOfHoldsEntries(DefaultOptions);
  }

  /** `config` with every section of `defaults` added and each of its options set where absent. */
  function Fill(config: Sections, defaults: Sections): Sections
  {
    map s | s in config.Keys + defaults.Keys ::
      (if s in defaults then defaults[s] else map[]) + (if s in config then config[s] else map[])
  }

  /**
   * What filling does: every section of either map is present, every option that was set keeps
   * its text, every absent default option gets its default, and nothing else is added.
   */
  lemma FillSpec(config: Sections, defaults: Sections)
    ensures var r := Fill(config, defaults);
      && r.Keys == config.Keys + defaults.Keys
      && (forall s, k :: s in config && k in config[s] ==> k in r[s] && r[s][k] == config[s][k])
      && (forall s, k :: s in defaults && k in defaults[s] && !(s in config && k in config[s]) ==>
            s in r && k in r[s] && r[s][k] == defaults[s][k])
      && (forall s, k :: s in r && k in r[s] ==> (s in config && k in config[s]) || (s in defaults && k in defaults[s]))
  {
  }

  /** Filling twice with the same defaults is filling once. */
  lemma FillIdempotent(config: Sections, defaults: Sections)
    ensures Fill(Fill(config, defaults), defaults) == Fill(config, defaults)
  {
    var once := Fill(config, defaults);
    var twice := Fill(once, defaults);
    forall s | s in twice
      ensures twice[s] == once[s]
    {
      var d := if s in defaults then defaults[s] else map[];
      var c := if s in config then config[s] else map[];
      assert once[s] == d + c;
      assert twice[s] == d + (d + c);
    }
  }

  /**
   * The configuration with its defaults filled in: the Login and Settings sections present,
   * every option that was set keeps its text, every absent default option gets its default,
   * and nothing else is added.
   */
  function WithDefaults(config: Sections): (r: Sections)
    ensures RequiredSections <= r.Keys
    ensures forall s :: s in r <==> s in config || s in Defaults
    ensures forall s, k :: s in config && k in config[s] ==> k in r[s] && r[s][k] == config[s][k]
    ensures forall s, k :: s in Defaults && k in Defaults[s] && !(s in config && k in config[s]) ==>
      s in r && k in r[s] && r[s][k] == Defaults[s][k]
    ensures forall s, k :: s in r && k in r[s] ==> (s in config && k in config[s]) || (s in Defaults && k in Defaults[s])
  {
    FillSpec(config, Defaults);
    Fill(config, Defaults)
  }

  /** Filling in defaults a second time changes nothing. */
  lemma WithDefaultsIdempotent(config: Sections)
    ensures WithDefaults(WithDefaults(config)) == WithDefaults(config)
  {
    FillIdempotent(config, Defaults);
  }

  predicate HasOption(config: Sections, section: string, option: string)
  {
    section in config && option in config[section]
  }

  function SetOption(config: Sections, section: string, option: string, value: string): Sections
    requires section in config
  {
    config[section := config[section][option := value]]
  }

  /** Inside one section: set options win over defaults, so a new default shows only where the option is unset. */
  lemma SetAbsentOption(d: map<string, string>, c: map<string, string>, option: string, value: string)
    requires option !in d
    ensures d[option := value] + c == if option in d + c then d + c else (d + c)[option := value]
  {
  }

  /** Changing the defaults of one section changes only that section of the result. */
  lemma FillReplacesSection(config: Sections, defaults: Sections, section: string, m: map<string, string>)
    requires section in defaults
    ensures Fill(config, defaults[section := m])
         == Fill(config, defaults)[section := m + (if section in config then config[section] else map[])]
  {
  }

  /** Setting one absent default option on a filled configuration is filling with one more default. */
  lemma FillOneMore(config: Sections, defaults: Sections, section: string, option: string, value: string)
    requires section in defaults && option !in defaults[section]
    ensures var filled := Fill(config, defaults);
      var next := Fill(config, defaults[section := defaults[section][option := value]]);
      && section in filled
      && (if HasOption(filled, section, option) then next == filled
          else next == SetOption(filled, section, option, value))
  {
    var c := if section in config then config[section] else map[];
    var d := defaults[section];
    FillReplacesSection(config, defaults, section, d[option := value]);
    FillReplacesSection(config, defaults, section, d);
    SetAbsentOption(d, c, option, value);
  }

  /** Before step `i`, the defaults collected so far hold the section of entry `i` but not its option. */
  lemma NotYetCollected(i: nat)
    requires i < |DefaultOptions|
    ensures DefaultOptions[i].section in DefaultsOf(DefaultOptions[..i])
    ensures DefaultOptions[i].option !in DefaultsOf(DefaultOptions[..i])[DefaultOptions[i].section]
  {
    var prefix := DefaultOptions[..i];
    assert forall j :: 0 <= j < i ==> prefix[j] == DefaultOptions[j];
    DefaultOptionsWellFormed();
  }

  /** Collecting one more default whose option is new is filling with one more default. */
  lemma FillCollected(config: Sections, entries: seq<DefaultOption>, e: DefaultOption)
    requires e.section in DefaultsOf(entries) && e.option !in DefaultsOf(entries)[e.section]
    ensures var filled := Fill(config, DefaultsOf(entries));
      var next := Fill(config, DefaultsOf(entries + [e]));
      && e.section in filled
      && (if HasOption(filled, e.section, e.option) then next == filled
          else next == SetOption(filled, e.section, e.option, e.value))
  {
    assert (entries + [e])[..|entries|] == entries;
    FillOneMore(config, DefaultsOf(entries), e.section, e.option, e.value);
  }

  /** Step `i` of `ensure_config` fills in the `i`-th default. */
  lemma FillStep(config: Sections, i: nat)
    requires i < |DefaultOptions|
    ensures var filled := Fill(config, DefaultsOf(DefaultOptions[..i]));
      var e := DefaultOptions[i];
      var next := Fill(config, DefaultsOf(DefaultOptions[..i + 1]));
      && e.section in filled
      && (if HasOption(filled, e.section, e.option) then next == filled
          else next == SetOption(filled, e.section, e.option, e.value))
  {
    assert DefaultOptions[..i + 1] == DefaultOptions[..i] + [DefaultOptions[i]];
    NotYetCollected(i);
    FillCollected(config, DefaultOptions[..i], DefaultOptions[i]);
  }

  /** Adding the missing required sections, empty, is filling with the empty defaults. */
  lemma FillEmptySections(config: Sections, r: Sections)
    requires r.Keys == config.Keys + RequiredSections
    requires forall s :: s in config ==> r[s] == config[s]
    requires forall s :: s in RequiredSections && s !in config ==> r[s] == map[]
    ensures r == Fill(config, DefaultsOf([]))
  {
    var f := Fill(config, DefaultsOf([]));
    forall s | s in f
      ensures f[s] == r[s]
    {
      var c := if s in config then config[s] else map[];
      assert map[] + c == c;
    }
  }

  /** Adds the Login and Settings sections where they are missing, leaving every other section as it was. */
  method AddRequiredSections(config: Sections) returns (r: Sections)
    ensures r == Fill(config, DefaultsOf([]))
  {
    r := config;
    if "Login" !in r {
      r := r["Login" := map[]];
    }
    if "Settings" !in r {
      r := r["Settings" := map[]];
    }
    FillEmptySections(config, r);
  }

  /** Adds the missing sections, then sets each default option that is not set yet, in table order. */
  method EnsureConfig(config: Sections) returns (r: Sections)
    ensures r == WithDefaults(config)
  {
    r := AddRequiredSections(config);
    assert DefaultOptions[..0] == [];

    for i := 0 to |DefaultOptions|
      invariant r == Fill(config, DefaultsOf(DefaultOptions[..i]))
    {
      var entry := DefaultOptions[i];
      FillStep(config, i);
      if !HasOption(r, entry.section, entry.option) {
        r := SetOption(r, entry.section, entry.option, entry.value);
      }
    }
    assert DefaultOptions[..|DefaultOptions|] == DefaultOptions;
  }
}
