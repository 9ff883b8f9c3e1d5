/** Routing decisions of the app shell: the auth gate (`auth-gate.tsx`), the layout choice
    (`app-content.tsx`), and the translation lookup (`i18n.ts`) the navigation menu uses. */
module Navigation {

  // ---------------------------------------------------------------- the auth gate

  const PublicPaths: seq<string> := ["/login", "/signup", "/"]

  predicate IsAuthPage(path: string) {
    path == "/login" || path == "/signup"
  }

  datatype Redirect = Stay | ReplaceWith(target: string)

  /** The effect at lines 16-30: nothing while the user state loads; a signed-in user on the
      login or signup page goes to the dashboard; a signed-out user off the public paths goes
      to the landing page. At most one redirect is issued. */
  function GateRedirect(loading: bool, signedIn: bool, path: string): (r: Redirect)
    ensures loading ==> r == Stay
    ensures r == ReplaceWith("/dashboard") <==> !loading && signedIn && IsAuthPage(path)
    ensures r == ReplaceWith("/") <==> !loading && !signedIn && path !in PublicPaths
    ensures r.ReplaceWith? ==> r.target == "/dashboard" || r.target == "/"
    ensures !loading && signedIn && path == "/" ==> r == Stay
  {
    if loading then Stay
    else if signedIn && IsAuthPage(path) then ReplaceWith("/dashboard")
    else if !signedIn && path !in PublicPaths then ReplaceWith("/")
    else Stay
  }

  /** Lines 33-42: the children are shown, rather than the spinner, exactly when the state has
      loaded and no redirect condition holds. */
  function GateRenders(loading: bool, signedIn: bool, path: string): (shown: bool)
    ensures shown <==> !loading && (signedIn || path in PublicPaths) && !(signedIn && IsAuthPage(path))
  {
    !(loading || (!signedIn && path !in PublicPaths) || (signedIn && IsAuthPage(path)))
  }

  /** Once loaded, the gate renders exactly when it does not redirect. */
  lemma RendersIffStays(signedIn: bool, path: string)
    ensures GateRenders(false, signedIn, path) <==> GateRedirect(false, signedIn, path) == Stay
  {
  }

  /** A redirect lands on a page the gate then shows: redirects never chain. */
  lemma RedirectSettles(signedIn: bool, path: string)
    requires GateRedirect(false, signedIn, path).ReplaceWith?
    ensures var p := GateRedirect(false, signedIn, path).target;
      GateRedirect(false, signedIn, p) == Stay && GateRenders(false, signedIn, p)
  {
    if signedIn {
      assert GateRedirect(false, signedIn, path).target == "/dashboard";
      assert !IsAuthPage("/dashboard");
    } else {
      assert GateRedirect(false, signedIn, path).target == "/";
      assert PublicPaths[2] == "/";
    }
  }

  // ---------------------------------------------------------------- the layout

  /** What `AppContent` renders: the loading screen, the bare page inside the gate, or the page
      with the sidebar and the floating counselor inside the gate. */
  datatype Layout = LoadingScreen | BarePage | FullLayout

  /** `AppContent` (lines 10-46). */
  function AppLayout(loading: bool, path: string): (l: Layout)
    ensures l == LoadingScreen <==> loading && path != "/login"
    ensures l == BarePage <==> path == "/login"
    ensures l == FullLayout <==> !loading && path != "/login"
  {
    if loading && path != "/login" then LoadingScreen
    else if path == "/login" then BarePage
    else FullLayout
  }

  // ---------------------------------------------------------------- translations

  datatype Locale = En

  /** The English table of `translations`. */
  const English: map<string, string> := map[
    "nav.space" := "Space", "nav.mood" := "Mood", "nav.habits" := "Habits", "nav.goals" := "Goals",
    "nav.schedule" := "Schedule", "nav.journal" := "Journal", "nav.library" := "Library",
    "nav.awards" := "Awards", "nav.insights" := "Insights", "nav.community" := "Community",
    "nav.safety" := "Safety", "dock.open" := "Open Navigation Menu", "dock.close" := "Close Navigation Menu",
    "nav.back" := "Back", "nav.profile" := "Profile"]

  function Table(locale: Locale): map<string, string> {
    match locale
    case En => English
  }

  /** The properties every plain object inherits from `Object.prototype`; indexing the table
      with one of them yields a function (or, for `__proto__`, an object), which is truthy. */
  const ObjectPrototypeKeys: set<string> := {
    "constructor", "hasOwnProperty", "isPrototypeOf", "propertyIsEnumerable", "toLocaleString",
    "toString", "valueOf", "__proto__", "__defineGetter__", "__defineSetter__",
    "__lookupGetter__", "__lookupSetter__"}

  /** What `translations[locale][key] || key` evaluates to in JavaScript. */
  datatype Lookup = Text(s: string) | InheritedMember(name: string)

  /** `t` as written (lines 23-26): property access also reaches the inherited members, and a
      truthy inherited member is returned in place of a string. */
  function TAsWritten(key: string, locale: Locale := En): (r: Lookup)
    ensures key in ObjectPrototypeKeys && key !in Table(locale) ==> r.InheritedMember?
  {
    if key in Table(locale) && Table(locale)[key] != "" then Text(Table(locale)[key])
    else if key in Table(locale) then Text(key)
    else if key in ObjectPrototypeKeys then InheritedMember(key)
    else Text(key)
  }

  /** `t("toString")` does not give a string back. */
  lemma TAsWrittenReturnsNonString()
    ensures TAsWritten("toString").InheritedMember?
  {
    assert "toString" !in English;
  }

  /** `t` with the lookup limited to the table's own entries: a key with a non-empty translation
      gets it, any other key (including the inherited member names) comes back as itself. */
  function T(key: string, locale: Locale := En): (r: string)
    ensures key in Table(locale) && Table(locale)[key] != "" ==> r == Table(locale)[key]
    ensures !(key in Table(locale) && Table(locale)[key] != "") ==> r == key
  {
    if key in Table(locale) && Table(locale)[key] != "" then Table(locale)[key] else key
  }

  /** The corrected lookup changes nothing except on the inherited member names. */
  lemma TAgreesOffPrototype(key: string)
    requires key !in ObjectPrototypeKeys
    ensures TAsWritten(key) == Text(T(key))
  {
  }

  /** The `title` keys of `navigationItems`, in menu order. */
  const NavigationTitles: seq<string> := [
    "nav.space", "nav.mood", "nav.habits", "nav.goals", "nav.schedule", "nav.journal",
    "nav.library", "nav.awards", "nav.insights", "nav.community", "nav.safety", "nav.profile"]

  /** Every menu title has a non-empty English translation, so `t` never falls back to the key
      for them, and none of them is an inherited member name. */
  lemma NavigationTitlesTranslated()
    ensures forall i | 0 <= i < |NavigationTitles| ::
      (NavigationTitles[i] in English && English[NavigationTitles[i]] != ""
       && T(NavigationTitles[i]) == English[NavigationTitles[i]] != NavigationTitles[i]
       && NavigationTitles[i] !in ObjectPrototypeKeys)
  {
  }
}
