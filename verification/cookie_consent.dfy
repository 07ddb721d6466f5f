/** The cookie banner's preference store: a three-flag record, the two
    presets, the draft toggles, the save that writes both storage keys, and
    the rule by which a page load restores what was saved. Storage is a map
    from key to stored value; a saved record is kept as the record itself
    rather than as its JSON text. */
module CookieConsent {

  datatype Prefs = Prefs(necessary: bool, analytics: bool, marketing: bool)

  datatype PrefKey = Necessary | Analytics | Marketing

  function Get(p: Prefs, k: PrefKey): bool
  {
    match k
    case Necessary => p.necessary
    case Analytics => p.analytics
    case Marketing => p.marketing
  }

  /** The draft a fresh component starts with. */
  const Default: Prefs := Prefs(true, false, false)
  const AllAccepted: Prefs := Prefs(true, true, true)
  const NecessaryOnly: Prefs := Prefs(true, false, false)

  const ConsentKey: string := "hubtrac-cookie-consent"
  const PreferencesKey: string := "hubtrac-cookie-preferences"

  lemma KeysDistinct()
    ensures ConsentKey != PreferencesKey
  {
    assert |ConsentKey| != |PreferencesKey|;
  }

  /** A stored value: some text, or a record written by a save. */
  datatype Stored = Text(text: string) | Record(prefs: Prefs)

  type Storage = map<string, Stored>

  /** `if (value)`: `null` (missing) and the empty string are falsy; a
      record's JSON text is never empty. */
  predicate Present(st: Storage, key: string)
  {
    key in st && (st[key].Record? || st[key].text != "")
  }

  /** The component's state. `bannerPending` stands for the 1000 ms timer
      that shows the banner; `visible` is `isVisible`; `prefs` is the draft. */
  datatype CookieState = CookieState(visible: bool, bannerPending: bool, prefs: Prefs, storage: Storage)

  /** What the mount-time load yields. A non-empty text under the
      preferences key goes to `JSON.parse`, which is not part of this model. */
  datatype Loaded = Mounted(state: CookieState) | Unparsed(text: string)

  /** The mount effect: without consent the banner is scheduled and the
      defaults stay; with consent a stored preferences value replaces the
      defaults, and a missing or empty one leaves them. */
  function Mount(st: Storage): (r: Loaded)
    ensures r.Mounted? ==> !r.state.visible && r.state.storage == st
    ensures r.Mounted? ==> (r.state.bannerPending <==> !Present(st, ConsentKey))
    ensures !Present(st, ConsentKey) ==> r == Mounted(CookieState(false, true, Default, st))
    ensures Present(st, ConsentKey) && !Present(st, PreferencesKey) ==> r == Mounted(CookieState(false, false, Default, st))
    ensures Present(st, ConsentKey) && PreferencesKey in st && st[PreferencesKey].Record? ==>
      r == Mounted(CookieState(false, false, st[PreferencesKey].prefs, st))
    ensures r.Unparsed? <==> Present(st, ConsentKey) && Present(st, PreferencesKey) && st[PreferencesKey].Text?
  {
    if !Present(st, ConsentKey) then Mounted(CookieState(false, true, Default, st))
    else if !Present(st, PreferencesKey) then Mounted(CookieState(false, false, Default, st))
    else
      match st[PreferencesKey]
      case Record(p) => Mounted(CookieState(false, false, p, st))
      case Text(t) => Unparsed(t)
  }

  /** The 1000 ms timer shows the banner; with no timer pending nothing runs. */
  function BannerTimer(s: CookieState): (r: CookieState)
    ensures s.bannerPending ==> r.visible && !r.bannerPending && r.prefs == s.prefs && r.storage == s.storage
    ensures !s.bannerPending ==> r == s
  {
    if s.bannerPending then s.(visible := true, bannerPending := false) else s
  }

  /** Which initialisations a save triggers. */
  datatype Inits = Inits(analytics: bool, marketing: bool)

  const NoInits: Inits := Inits(false, false)

  datatype Saved = Saved(state: CookieState, inits: Inits)

  /** `savePreferences(p)`: the consent key becomes `"true"`, the
      preferences key holds `p`, the draft becomes `p`, the banner closes,
      and each optional category is initialised exactly when it is accepted. */
  function Save(s: CookieState, p: Prefs): (r: Saved)
    ensures ConsentKey in r.state.storage && PreferencesKey in r.state.storage
    ensures r.state.storage[ConsentKey] == Text("true")
    ensures r.state.storage[PreferencesKey] == Record(p)
    ensures forall k :: k != ConsentKey && k != PreferencesKey ==>
      (k in r.state.storage <==> k in s.storage) && (k in s.storage ==> r.state.storage[k] == s.storage[k])
    ensures r.state.prefs == p && !r.state.visible && r.state.bannerPending == s.bannerPending
    ensures r.inits.analytics <==> p.analytics
    ensures r.inits.marketing <==> p.marketing
  {
    KeysDistinct();
    var st := s.storage[ConsentKey := Text("true")][PreferencesKey := Record(p)];
    Saved(s.(storage := st, prefs := p, visible := false), Inits(p.analytics, p.marketing))
  }

  /** `handleAcceptAll` */
  function AcceptAll(s: CookieState): (r: Saved)
    ensures r.state.prefs == AllAccepted && PreferencesKey in r.state.storage && r.state.storage[PreferencesKey] == Record(AllAccepted)
    ensures r.inits == Inits(true, true)
  {
    Save(s, AllAccepted)
  }

  /** `handleAcceptNecessary` */
  function AcceptNecessary(s: CookieState): (r: Saved)
    ensures r.state.prefs == NecessaryOnly && PreferencesKey in r.state.storage && r.state.storage[PreferencesKey] == Record(NecessaryOnly)
    ensures r.inits == NoInits
  {
    Save(s, NecessaryOnly)
  }

  /** `handleSavePreferences`: the draft is committed unchanged. */
  function SaveDraft(s: CookieState): (r: Saved)
    ensures r.state.prefs == s.prefs && PreferencesKey in r.state.storage && r.state.storage[PreferencesKey] == Record(s.prefs)
  {
    Save(s, s.prefs)
  }

  /** `togglePreference(k)`: the necessary flag cannot be changed; the other
      two flip, and nothing else changes. */
  function Toggle(p: Prefs, k: PrefKey): (r: Prefs)
    ensures k == Necessary ==> r == p
    ensures k != Necessary ==> Get(r, k) == !Get(p, k)
    ensures forall j :: j != k ==> Get(r, j) == Get(p, j)
  {
    match k
    case Necessary => p
    case Analytics => p.(analytics := !p.analytics)
    case Marketing => p.(marketing := !p.marketing)
  }

  /** Two records agreeing on every flag are equal. */
  lemma PrefsExtensional(a: Prefs, b: Prefs)
    requires forall k :: Get(a, k) == Get(b, k)
    ensures a == b
  {
    assert Get(a, Necessary) == Get(b, Necessary);
    assert Get(a, Analytics) == Get(b, Analytics);
    assert Get(a, Marketing) == Get(b, Marketing);
  }

  /** Toggling the same key twice restores the record. */
  lemma ToggleTwice(p: Prefs, k: PrefKey)
    ensures Toggle(Toggle(p, k), k) == p
  {
    var q := Toggle(Toggle(p, k), k);
    forall j
      ensures Get(q, j) == Get(p, j)
    {
    }
    PrefsExtensional(q, p);
  }

  /** Toggles of different keys commute. */
  lemma ToggleCommutes(p: Prefs, j: PrefKey, k: PrefKey)
    ensures Toggle(Toggle(p, j), k) == Toggle(Toggle(p, k), j)
  {
    var a, b := Toggle(Toggle(p, j), k), Toggle(Toggle(p, k), j);
    forall i
      ensures Get(a, i) == Get(b, i)
    {
    }
    PrefsExtensional(a, b);
  }

  datatype Event =
    | BannerShown
    | AcceptAllClicked
    | AcceptNecessaryClicked
    | SaveClicked
    | Toggled(key: PrefKey)
    | Dismissed

  /** The backdrop click and the close button: the banner closes and
      nothing else changes. */
  function Dismiss(s: CookieState): (r: CookieState)
    ensures !r.visible && r.prefs == s.prefs && r.storage == s.storage && r.bannerPending == s.bannerPending
  {
    s.(visible := false)
  }

  /** One event. The buttons, toggles and backdrop exist only while the
      banner is visible, so while it is hidden only the timer does anything. */
  function Step(s: CookieState, e: Event): (r: Saved)
    ensures !s.visible && !e.BannerShown? ==> r == Saved(s, NoInits)
    ensures e.Dismissed? ==> r.state.storage == s.storage && r.state.prefs == s.prefs && !r.state.visible
    ensures e.Toggled? ==> r.state.storage == s.storage && r.inits == NoInits
  {
    if e.BannerShown? then Saved(BannerTimer(s), NoInits)
    else if !s.visible then Saved(s, NoInits)
    else
      match e
      case AcceptAllClicked => AcceptAll(s)
      case AcceptNecessaryClicked => AcceptNecessary(s)
      case SaveClicked => SaveDraft(s)
      case Toggled(k) => Saved(s.(prefs := Toggle(s.prefs, k)), NoInits)
      case Dismissed => Saved(Dismiss(s), NoInits)
  }

  function Run(s: CookieState, events: seq<Event>): CookieState
    decreases |events|
  {
    if events == [] then s else Run(Step(s, events[0]).state, events[1..])
  }

  /** The draft and any saved record both keep the necessary flag set. */
  predicate NecessaryKept(s: CookieState)
  {
    && s.prefs.necessary
    && (PreferencesKey in s.storage && s.storage[PreferencesKey].Record? ==> s.storage[PreferencesKey].prefs.necessary)
  }

  lemma StepKeepsNecessary(s: CookieState, e: Event)
    requires NecessaryKept(s)
    ensures NecessaryKept(Step(s, e).state)
  {
  }

  /** Whatever the user clicks, the necessary flag stays set in the draft
      and in storage. */
  lemma {:induction false} RunKeepsNecessary(s: CookieState, events: seq<Event>)
    requires NecessaryKept(s)
    ensures NecessaryKept(Run(s, events))
    decreases |events|
  {
    if events != [] {
      StepKeepsNecessary(s, events[0]);
      RunKeepsNecessary(Step(s, events[0]).state, events[1..]);
    }
  }

  /** A page load over storage the banner wrote, or over empty storage,
      never yields a draft without the necessary flag. */
  lemma MountKeepsNecessary(st: Storage)
    requires PreferencesKey in st && st[PreferencesKey].Record? ==> st[PreferencesKey].prefs.necessary
    ensures Mount(st).Mounted? ==> NecessaryKept(Mount(st).state)
  {
  }

  /** A save followed by a page load restores exactly the saved record,
      with no banner scheduled. */
  lemma SaveThenMount(s: CookieState, p: Prefs)
    ensures Mount(Save(s, p).state.storage) == Mounted(CookieState(false, false, p, Save(s, p).state.storage))
  {
  }

  /** From a first visit, whatever the user does and after one later
      reload, the necessary flag stays set. */
  lemma FirstVisitKeepsNecessary(st: Storage, events: seq<Event>)
    requires PreferencesKey !in st
    ensures Mount(st).Mounted?
    ensures NecessaryKept(Run(Mount(st).state, events))
    ensures Mount(Run(Mount(st).state, events).storage).Mounted? ==>
      NecessaryKept(Mount(Run(Mount(st).state, events).storage).state)
  {
    var s := Mount(st).state;
    RunKeepsNecessary(s, events);
    MountKeepsNecessary(Run(s, events).storage);
  }

  /** The end-to-end tests pre-store the consent value `"accepted"`: any
      non-empty value counts as consent, so no banner is scheduled. */
  lemma TestConsentSuppressesBanner()
    ensures Mount(map[ConsentKey := Text("accepted")]) ==
      Mounted(CookieState(false, false, Default, map[ConsentKey := Text("accepted")]))
  {
    KeysDistinct();
  }
}
