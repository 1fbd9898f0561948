/** The settings widget's state: seven persisted settings (endpoint, result
    limit, auto-refresh switch and interval, colour scheme, minimum score and
    the list of assembly names) plus three volatile flags, changed only by the
    widget's actions. Numbers are exact reals; NaN and the infinities are not
    represented. */
module WidgetSettings {
  import opened Options

  /** The persisted part, the shape of `DEFAULT_CONFIG` and `configSummary`. */
  datatype PluginConfig = PluginConfig(
    syntenyEndpoint: string,
    maxResults: real,
    enableAutoRefresh: bool,
    refreshInterval: real,
    colorScheme: string,
    minScore: real,
    assemblyNames: seq<string>)

  /** `DEFAULT_CONFIG`. */
  const DefaultConfig := PluginConfig("https://api.example.com/synteny", 100.0, false, 30.0, "default", 0.0, [])

  /** The whole widget: persisted settings and the volatile flags. */
  datatype Widget = Widget(config: PluginConfig, isLoading: bool, error: Option<string>, isSaved: bool)

  /** A freshly created widget, before anything is loaded from storage: each
      setting takes the default its model declaration names (`DEFAULT_CONFIG`'s
      field for six of them, a literal empty list for the assembly names), and
      the volatile flags start cleared. */
  const InitialWidget := Widget(
    PluginConfig(
      DefaultConfig.syntenyEndpoint,
      DefaultConfig.maxResults,
      DefaultConfig.enableAutoRefresh,
      DefaultConfig.refreshInterval,
      DefaultConfig.colorScheme,
      DefaultConfig.minScore,
      []),
    false, None, false)

  /** The ten observable fields, for stating what an action leaves alone. */
  datatype FieldName =
    | SyntenyEndpoint | MaxResults | EnableAutoRefresh | RefreshInterval | ColorScheme | MinScore
    | AssemblyNames | IsLoading | ErrorMessage | IsSaved

  datatype FieldValue = Text(s: string) | Number(x: real) | Flag(b: bool) | Names(ns: seq<string>) | Message(m: Option<string>)

  function Get(w: Widget, f: FieldName): FieldValue {
    match f
    case SyntenyEndpoint => Text(w.config.syntenyEndpoint)
    case MaxResults => Number(w.config.maxResults)
    case EnableAutoRefresh => Flag(w.config.enableAutoRefresh)
    case RefreshInterval => Number(w.config.refreshInterval)
    case ColorScheme => Text(w.config.colorScheme)
    case MinScore => Number(w.config.minScore)
    case AssemblyNames => Names(w.config.assemblyNames)
    case IsLoading => Flag(w.isLoading)
    case ErrorMessage => Message(w.error)
    case IsSaved => Flag(w.isSaved)
  }

  /** The fields list every part of the state: widgets that agree on all of
      them are equal. */
  lemma FieldsDetermineWidget(v: Widget, w: Widget)
    requires forall f :: Get(v, f) == Get(w, f)
    ensures v == w
  {
    assert Get(v, SyntenyEndpoint) == Get(w, SyntenyEndpoint);
    assert Get(v, MaxResults) == Get(w, MaxResults);
    assert Get(v, EnableAutoRefresh) == Get(w, EnableAutoRefresh);
    assert Get(v, RefreshInterval) == Get(w, RefreshInterval);
    assert Get(v, ColorScheme) == Get(w, ColorScheme);
    assert Get(v, MinScore) == Get(w, MinScore);
    assert Get(v, AssemblyNames) == Get(w, AssemblyNames);
    assert Get(v, IsLoading) == Get(w, IsLoading);
    assert Get(v, ErrorMessage) == Get(w, ErrorMessage);
    assert Get(v, IsSaved) == Get(w, IsSaved);
  }

  /** `r` is `w` with only field `f` replaced by `x`. */
  predicate OnlyChanged(w: Widget, r: Widget, f: FieldName, x: FieldValue) {
    Get(r, f) == x && forall g :: g != f ==> Get(r, g) == Get(w, g)
  }

  function SetSyntenyEndpoint(w: Widget, value: string): (r: Widget)
    ensures OnlyChanged(w, r, SyntenyEndpoint, Text(value))
  {
    w.(config := w.config.(syntenyEndpoint := value))
  }

  function SetMaxResults(w: Widget, value: real): (r: Widget)
    ensures OnlyChanged(w, r, MaxResults, Number(value))
  {
    w.(config := w.config.(maxResults := value))
  }

  function SetEnableAutoRefresh(w: Widget, value: bool): (r: Widget)
    ensures OnlyChanged(w, r, EnableAutoRefresh, Flag(value))
  {
    w.(config := w.config.(enableAutoRefresh := value))
  }

  function SetRefreshInterval(w: Widget, value: real): (r: Widget)
    ensures OnlyChanged(w, r, RefreshInterval, Number(value))
  {
    w.(config := w.config.(refreshInterval := value))
  }

  function SetColorScheme(w: Widget, value: string): (r: Widget)
    ensures OnlyChanged(w, r, ColorScheme, Text(value))
  {
    w.(config := w.config.(colorScheme := value))
  }

  function SetMinScore(w: Widget, value: real): (r: Widget)
    ensures OnlyChanged(w, r, MinScore, Number(value))
  {
    w.(config := w.config.(minScore := value))
  }

  function SetError(w: Widget, error: Option<string>): (r: Widget)
    ensures OnlyChanged(w, r, ErrorMessage, Message(error))
  {
    w.(error := error)
  }

  function SetLoading(w: Widget, loading: bool): (r: Widget)
    ensures OnlyChanged(w, r, IsLoading, Flag(loading))
  {
    w.(isLoading := loading)
  }

  function SetIsSaved(w: Widget, saved: bool): (r: Widget)
    ensures OnlyChanged(w, r, IsSaved, Flag(saved))
  {
    w.(isSaved := saved)
  }

  /** No name occurs twice. */
  predicate Distinct(s: seq<string>) {
    forall i, j :: 0 <= i < j < |s| ==> s[i] != s[j]
  }

  /** The list invariant the actions keep: distinct, non-empty names. */
  predicate NamesOk(s: seq<string>) {
    Distinct(s) && forall i :: 0 <= i < |s| ==> s[i] != ""
  }

  /** `addAssemblyName`: append a non-empty name not yet listed; otherwise
      nothing changes. */
  function AddAssemblyName(w: Widget, name: string): (r: Widget)
    ensures name == "" || name in w.config.assemblyNames ==> r == w
    ensures name != "" && name !in w.config.assemblyNames ==>
      OnlyChanged(w, r, AssemblyNames, Names(w.config.assemblyNames + [name]))
  {
    if name != "" && name !in w.config.assemblyNames then
      w.(config := w.config.(assemblyNames := w.config.assemblyNames + [name]))
    else w
  }

  /** After adding, a name is listed exactly when it was listed before or is
      the non-empty added name. */
  lemma AddAssemblyNameMembers(w: Widget, name: string, x: string)
    ensures x in AddAssemblyName(w, name).config.assemblyNames
            <==> x in w.config.assemblyNames || (x == name && name != "")
  {
  }

  /** Adding keeps the list free of duplicates and of empty names. */
  lemma AddAssemblyNameKeepsNamesOk(w: Widget, name: string)
    requires NamesOk(w.config.assemblyNames)
    ensures NamesOk(AddAssemblyName(w, name).config.assemblyNames)
  {
    var s := w.config.assemblyNames;
    if name != "" && name !in s {
      var t := s + [name];
      forall i, j | 0 <= i < j < |t|
        ensures t[i] != t[j]
      {
        if j == |s| {
          assert t[i] == s[i];
        }
      }
    }
  }

  /** Adding the same name twice is adding it once. */
  lemma AddAssemblyNameIdempotent(w: Widget, name: string)
    ensures AddAssemblyName(AddAssemblyName(w, name), name) == AddAssemblyName(w, name)
  {
  }

  /** Where `splice(index, 1)` starts: a negative index counts back from the
      end and stops at the front; a large index points past the end. */
  function SpliceStart(len: nat, index: int): (k: nat)
    ensures index >= 0 ==> k == index
    ensures -(len as int) <= index < 0 ==> k == len + index
    ensures index < -(len as int) ==> k == 0
  {
    if index >= 0 then index
    else if len + index >= 0 then len + index
    else 0
  }

  /** `removeAssemblyName`: JavaScript's `splice(index, 1)` on the list. */
  function RemoveAssemblyName(w: Widget, index: int): (r: Widget)
    ensures
      var s := w.config.assemblyNames;
      var k := SpliceStart(|s|, index);
      && (k >= |s| ==> r == w)
      && (k < |s| ==> OnlyChanged(w, r, AssemblyNames, Names(s[..k] + s[k + 1..])))
  {
    var s := w.config.assemblyNames;
    var k := SpliceStart(|s|, index);
    if k < |s| then w.(config := w.config.(assemblyNames := s[..k] + s[k + 1..])) else w
  }

  /** Removing a valid index drops exactly that element; the others keep
      their order and shift down by one past the removed position. */
  lemma RemoveAssemblyNameAt(w: Widget, i: int)
    requires 0 <= i < |w.config.assemblyNames|
    ensures
      var s := w.config.assemblyNames;
      var t := RemoveAssemblyName(w, i).config.assemblyNames;
      && |t| == |s| - 1
      && (forall j :: 0 <= j < i ==> t[j] == s[j])
      && (forall j :: i <= j < |t| ==> t[j] == s[j + 1])
  {
  }

  /** A negative index counts from the end (`-1` is the last name); one
      further back than the list is long removes the first name. */
  lemma RemoveAssemblyNameNegative(w: Widget, i: int)
    requires i < 0 && |w.config.assemblyNames| > 0
    ensures -|w.config.assemblyNames| <= i ==>
      RemoveAssemblyName(w, i) == RemoveAssemblyName(w, |w.config.assemblyNames| + i)
    ensures i < -|w.config.assemblyNames| ==> RemoveAssemblyName(w, i) == RemoveAssemblyName(w, 0)
  {
  }

  /** An index at or past the end removes nothing. */
  lemma RemoveAssemblyNamePastEnd(w: Widget, i: int)
    requires i >= |w.config.assemblyNames|
    ensures RemoveAssemblyName(w, i) == w
  {
  }

  /** Removing keeps the list free of duplicates and of empty names, and the
      removed name is no longer listed. */
  lemma RemoveAssemblyNameKeepsNamesOk(w: Widget, index: int)
    requires NamesOk(w.config.assemblyNames)
    ensures NamesOk(RemoveAssemblyName(w, index).config.assemblyNames)
    ensures
      var s := w.config.assemblyNames;
      var k := SpliceStart(|s|, index);
      k < |s| ==> s[k] !in RemoveAssemblyName(w, index).config.assemblyNames
  {
    var s := w.config.assemblyNames;
    var k := SpliceStart(|s|, index);
    if k < |s| {
      var t := s[..k] + s[k + 1..];
      assert forall j :: 0 <= j < |t| ==> t[j] == s[if j < k then j else j + 1];
    }
  }

  /** `resetToDefaults`: the persisted settings return to `DEFAULT_CONFIG`,
      the volatile flags stay. */
  function ResetToDefaults(w: Widget): (r: Widget)
    ensures Get(r, SyntenyEndpoint) == Text("https://api.example.com/synteny")
    ensures Get(r, MaxResults) == Number(100.0)
    ensures Get(r, EnableAutoRefresh) == Flag(false)
    ensures Get(r, RefreshInterval) == Number(30.0)
    ensures Get(r, ColorScheme) == Text("default")
    ensures Get(r, MinScore) == Number(0.0)
    ensures Get(r, AssemblyNames) == Names([])
    ensures Get(r, IsLoading) == Get(w, IsLoading)
    ensures Get(r, ErrorMessage) == Get(w, ErrorMessage)
    ensures Get(r, IsSaved) == Get(w, IsSaved)
  {
    w.(config := DefaultConfig)
  }

  /** Resetting twice is resetting once. */
  lemma ResetToDefaultsIdempotent(w: Widget)
    ensures ResetToDefaults(ResetToDefaults(w)) == ResetToDefaults(w)
  {
  }

  /** After a reset the settings summary equals a freshly created widget's. */
  lemma ResetMatchesFreshWidget(w: Widget)
    ensures ResetToDefaults(w).config == InitialWidget.config
  {
  }

  /** The widget's actions. */
  datatype Action =
    | SetSyntenyEndpointTo(endpoint: string)
    | SetMaxResultsTo(maxResults: real)
    | SetEnableAutoRefreshTo(enabled: bool)
    | SetRefreshIntervalTo(interval: real)
    | SetColorSchemeTo(scheme: string)
    | SetMinScoreTo(minScore: real)
    | Add(name: string)
    | Remove(index: int)
    | Reset
    | SetErrorTo(message: Option<string>)
    | SetLoadingTo(loading: bool)
    | SetIsSavedTo(saved: bool)

  function Apply(w: Widget, a: Action): Widget {
    match a
    case SetSyntenyEndpointTo(v) => SetSyntenyEndpoint(w, v)
    case SetMaxResultsTo(v) => SetMaxResults(w, v)
    case SetEnableAutoRefreshTo(v) => SetEnableAutoRefresh(w, v)
    case SetRefreshIntervalTo(v) => SetRefreshInterval(w, v)
    case SetColorSchemeTo(v) => SetColorScheme(w, v)
    case SetMinScoreTo(v) => SetMinScore(w, v)
    case Add(name) => AddAssemblyName(w, name)
    case Remove(index) => RemoveAssemblyName(w, index)
    case Reset => ResetToDefaults(w)
    case SetErrorTo(m) => SetError(w, m)
    case SetLoadingTo(b) => SetLoading(w, b)
    case SetIsSavedTo(b) => SetIsSaved(w, b)
  }

  function ApplyAll(w: Widget, actions: seq<Action>): Widget
    decreases |actions|
  {
    if |actions| == 0 then w else ApplyAll(Apply(w, actions[0]), actions[1..])
  }

  /** Every action keeps the assembly list free of duplicates and of empty
      names. */
  lemma ApplyKeepsNamesOk(w: Widget, a: Action)
    requires NamesOk(w.config.assemblyNames)
    ensures NamesOk(Apply(w, a).config.assemblyNames)
  {
    match a
    case Add(name) => AddAssemblyNameKeepsNamesOk(w, name);
    case Remove(index) => RemoveAssemblyNameKeepsNamesOk(w, index);
    case _ =>
  }

  /** Starting from a fresh widget, no sequence of actions ever lists a name
      twice or lists the empty name. */
  lemma {:induction false} ApplyAllKeepsNamesOk(w: Widget, actions: seq<Action>)
    requires NamesOk(w.config.assemblyNames)
    ensures NamesOk(ApplyAll(w, actions).config.assemblyNames)
    decreases |actions|
  {
    if |actions| > 0 {
      ApplyKeepsNamesOk(w, actions[0]);
      ApplyAllKeepsNamesOk(Apply(w, actions[0]), actions[1..]);
    }
  }
}
