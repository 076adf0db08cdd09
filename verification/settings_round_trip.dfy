/**
 * How the settings page and the feed agree: both read the same two keys, so
 * what a save writes is what the next page shows and what the feed runs,
 * and a save for one project leaves every other project's query alone.
 */
module SettingsRoundTrip {
  import opened Wrappers
  import opened JavaStrings
  import opened Jira
  import opened PluginSettings
  import opened RequestsResource
  import opened SettingsServlet

  /**
   * The page and the feed resolve the same query: whenever the page renders,
   * the feed runs the text shown when the page says custom mode and that text
   * is not blank, and the default query otherwise.
   */
  lemma PageMatchesFeedQuery(projectKey: JString, user: Option<User>, projects: map<string, string>,
                             settings: Option<Entries>, saved: JString)
    requires LoadSettingsPage(projectKey, user, projects, settings, saved).Render?
    ensures var page := LoadSettingsPage(projectKey, user, projects, settings, saved).page;
      ConfiguredJql(projectKey, settings)
        == if page.useCustomJql && !IsBlank(page.currentJql) then page.currentJql else DefaultJql
  {
  }

  /**
   * After a save for project `p`, the feed for `p` runs exactly the text the
   * save stored: the trimmed custom text when custom mode was chosen with a
   * non-blank text, the default query otherwise.
   */
  lemma SaveThenResolve(entries: Entries, p: string, jqlOption: JString, customJql: JString)
    requires !IsBlank(p)
    ensures ConfiguredJql(Some(p), Some(SavedEntries(entries, p, jqlOption, customJql)))
            == SavedJql(jqlOption, customJql)
    ensures ConfiguredJql(Some(p), Some(SavedEntries(entries, p, jqlOption, customJql)))
            == if jqlOption == Some("custom") && customJql.Some? && !IsBlank(customJql.value)
               then Trim(customJql.value) else DefaultJql
  {
    DefaultJqlNotBlank();
    if ChoosesCustom(jqlOption) {
      assert SelectsCustom(Some(p), Some(SavedEntries(entries, p, jqlOption, customJql)), SavedJql(jqlOption, customJql));
    }
  }

  /**
   * The mode a save chose comes back when the flag is read: the stored
   * `.useCustom` decodes as on exactly when the option was "custom".
   */
  lemma SavedModeRoundTrip(entries: Entries, p: string, jqlOption: JString, customJql: JString)
    ensures DecodeUseCustom(Lookup(SavedEntries(entries, p, jqlOption, customJql), UseCustomKey(p)))
            <==> jqlOption == Some("custom")
  {
  }

  /** A save for project `p` does not change the query the feed runs for any other project `q`. */
  lemma SaveIsolation(entries: Entries, p: string, q: string, jqlOption: JString, customJql: JString)
    requires p != q
    ensures ConfiguredJql(Some(q), Some(SavedEntries(entries, p, jqlOption, customJql)))
            == ConfiguredJql(Some(q), Some(entries))
  {
    var after := SavedEntries(entries, p, jqlOption, customJql);
    KeysDistinct(p, q);
    KeysDistinct(q, p);
    if JqlKey(p) == JqlKey(q) {
      JqlKeyInjective(p, q);
    }
    if UseCustomKey(p) == UseCustomKey(q) {
      UseCustomKeyInjective(p, q);
    }
    assert Lookup(after, JqlKey(q)) == Lookup(entries, JqlKey(q));
    assert Lookup(after, UseCustomKey(q)) == Lookup(entries, UseCustomKey(q));
  }

  /**
   * After a save and the redirect it sends (`saved=true`), the page shows the
   * chosen mode, the stored text and the success banner.
   */
  lemma SaveThenLoad(entries: Entries, p: string, user: User, projects: map<string, string>,
                     jqlOption: JString, customJql: JString)
    requires !IsBlank(p) && p in projects
    ensures var outcome := LoadSettingsPage(Some(p), Some(user), projects,
                                            Some(SavedEntries(entries, p, jqlOption, customJql)), Some("true"));
      && outcome.Render?
      && outcome.page.useCustomJql == (jqlOption == Some("custom"))
      && outcome.page.currentJql == SavedJql(jqlOption, customJql)
      && outcome.page.showSuccess
      && RenderForm(outcome.page).successBanner
  {
  }
}
