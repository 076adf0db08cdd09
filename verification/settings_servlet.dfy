/**
 * `WmprSettingsServlet`: the per-project settings page. GET shows which query
 * mode is selected and the stored text; POST writes the two settings keys and
 * redirects back with `saved=true`.
 */
module SettingsServlet {
  import opened Wrappers
  import opened JavaStrings
  import opened Jira
  import opened PluginSettings

  /** What the page is rendered from. */
  datatype SettingsPage = SettingsPage(
    projectKey: string,
    projectName: string,
    currentJql: string,
    useCustomJql: bool,
    showSuccess: bool)

  /** `doGet`'s outcome: `sendError(code, message)` or a rendered page. */
  datatype PageOutcome = SendError(code: nat, message: string) | Render(page: SettingsPage)

  /**
   * `doGet`. `projects` maps current project keys to project names (the
   * project manager's lookup); `settings` is None when the store cannot be
   * read. The guards run in order 400, 401, 404 and read no settings. A
   * failure while reading settings (the store, or a `.jql` entry that is not
   * a String) renders the page with the default query, default mode and no
   * banner.
   */
  function LoadSettingsPage(projectKey: JString, user: Option<User>, projects: map<string, string>,
                            settings: Option<Entries>, saved: JString): (r: PageOutcome)
    ensures IsNullOrBlank(projectKey) ==> r == SendError(400, "Project key is required")
    ensures !IsNullOrBlank(projectKey) && user.None? ==> r == SendError(401, "User not authenticated")
    ensures !IsNullOrBlank(projectKey) && user.Some? && projectKey.value !in projects ==>
      r == SendError(404, "Project not found")
    ensures r.SendError? <==> IsNullOrBlank(projectKey) || user.None? || projectKey.value !in projects
    ensures r.Render? ==> r.page.projectKey == projectKey.value && r.page.projectName == projects[projectKey.value]
    // the page never claims a save that the request did not report, nor custom mode the store does not hold
    ensures r.Render? && r.page.showSuccess ==> saved == Some("true")
    ensures r.Render? && r.page.useCustomJql ==>
      settings.Some? && DecodeUseCustom(Lookup(settings.value, UseCustomKey(projectKey.value)))
    // what the page shows as the query is the stored String, or the default
    ensures r.Render? ==>
      r.page.currentJql == DefaultJql
      || (settings.Some? && Lookup(settings.value, JqlKey(projectKey.value)) == Some(StringValue(r.page.currentJql)))
    // a readable store whose `.jql` entry casts: the stored text (or the default when absent), the decoded flag, the banner as requested
    ensures r.Render? && settings.Some? && CastToString(Lookup(settings.value, JqlKey(projectKey.value))).CastOk? ==>
      && r.page.useCustomJql == DecodeUseCustom(Lookup(settings.value, UseCustomKey(projectKey.value)))
      && r.page.showSuccess == (saved == Some("true"))
      && (Lookup(settings.value, JqlKey(projectKey.value)).Some? ==>
            Lookup(settings.value, JqlKey(projectKey.value)) == Some(StringValue(r.page.currentJql)))
      && (Lookup(settings.value, JqlKey(projectKey.value)).None? ==> r.page.currentJql == DefaultJql)
    // an unreadable store or a `.jql` entry that is not a String: the fallback page, default query and mode, no banner
    ensures r.Render? && (settings.None? || CastToString(Lookup(settings.value, JqlKey(projectKey.value))).CastFails?) ==>
      r.page.currentJql == DefaultJql && !r.page.useCustomJql && !r.page.showSuccess
  {
    if IsNullOrBlank(projectKey) then SendError(400, "Project key is required")
    else if user.None? then SendError(401, "User not authenticated")
    else if projectKey.value !in projects then SendError(404, "Project not found")
    else
      var key := projectKey.value;
      var name := projects[key];
      match settings
      case None => Render(SettingsPage(key, name, DefaultJql, false, false))
      case Some(entries) =>
        match CastToString(Lookup(entries, JqlKey(key)))
        case CastFails => Render(SettingsPage(key, name, DefaultJql, false, false))
        case CastOk(stored) =>
          var useCustom := DecodeUseCustom(Lookup(entries, UseCustomKey(key)));
          var currentJql := if stored.None? then DefaultJql else stored.value;
          Render(SettingsPage(key, name, currentJql, useCustom, saved == Some("true")))
  }

  /** The parts of the generated form that carry meaning. */
  datatype FormView = FormView(
    hiddenProjectKey: string,
    defaultRadio: string,
    customRadio: string,
    textarea: string,
    successBanner: bool)

  /**
   * `generateProjectSettingsHtml`, reduced to the `checked` attribute of each
   * radio button, the textarea content, the success banner and the hidden
   * project key.
   */
  function RenderForm(page: SettingsPage): (v: FormView)
    ensures (v.defaultRadio == "checked") != (v.customRadio == "checked")
    ensures v.customRadio == "checked" <==> page.useCustomJql
    ensures v.defaultRadio in {"checked", ""} && v.customRadio in {"checked", ""}
    ensures page.useCustomJql ==> v.textarea == page.currentJql
    ensures !page.useCustomJql ==> v.textarea == ""
    ensures v.successBanner <==> page.showSuccess
    ensures v.hiddenProjectKey == page.projectKey
  {
    FormView(
      page.projectKey,
      if !page.useCustomJql then "checked" else "",
      if page.useCustomJql then "checked" else "",
      if page.useCustomJql then page.currentJql else "",
      page.showSuccess)
  }

  /** `doPost`'s outcome: `sendError(code, message)` or `sendRedirect(location)`. */
  datatype PostOutcome = PostError(code: nat) | Redirect(location: string)

  /** The redirect back to the page, asking it to show the banner. */
  function SavedLocation(projectKey: string): string
  {
    "/plugins/servlet/wmpr-settings?projectKey=" + projectKey + "&saved=true"
  }

  /** Custom mode is chosen exactly when the option is the String "custom". */
  function ChoosesCustom(jqlOption: JString): bool
  {
    jqlOption == Some("custom")
  }

  /**
   * The text saved under `.jql`: the trimmed custom text when custom mode is
   * chosen and the text is not blank, the default query otherwise. It is
   * never blank.
   */
  function SavedJql(jqlOption: JString, customJql: JString): (t: string)
    ensures !IsBlank(t)
    ensures ChoosesCustom(jqlOption) && customJql.Some? && !IsBlank(customJql.value) ==> t == Trim(customJql.value)
    ensures !(ChoosesCustom(jqlOption) && customJql.Some? && !IsBlank(customJql.value)) ==> t == DefaultJql
  {
    DefaultJqlNotBlank();
    if ChoosesCustom(jqlOption) && customJql.Some? && !IsBlank(customJql.value) then
      BlankIffTrimEmpty(customJql.value);
      TrimIdempotent(customJql.value);
      BlankIffTrimEmpty(Trim(customJql.value));
      Trim(customJql.value)
    else DefaultJql
  }

  /**
   * The store after a successful save: `.useCustom` holds the String "true"
   * or "false", `.jql` holds the saved text, and every other key is as it was.
   */
  function SavedEntries(entries: Entries, projectKey: string, jqlOption: JString, customJql: JString): (r: Entries)
    ensures r.Keys == entries.Keys + {UseCustomKey(projectKey), JqlKey(projectKey)}
    ensures Lookup(r, UseCustomKey(projectKey)) == Some(StringValue(if ChoosesCustom(jqlOption) then "true" else "false"))
    ensures Lookup(r, JqlKey(projectKey)) == Some(StringValue(SavedJql(jqlOption, customJql)))
    ensures forall k | k != UseCustomKey(projectKey) && k != JqlKey(projectKey) :: Lookup(r, k) == Lookup(entries, k)
  {
    KeysDistinct(projectKey, projectKey);
    entries[UseCustomKey(projectKey) := StringValue(if ChoosesCustom(jqlOption) then "true" else "false")]
           [JqlKey(projectKey) := StringValue(SavedJql(jqlOption, customJql))]
  }

  /**
   * `doPost`. `store` is null when the settings factory is unavailable, which
   * makes the save fail with 500 before anything is written. A blank key
   * (400) or a missing user (401) writes nothing either.
   */
  method SaveSettings(store: SettingsStore?, projectKey: JString, user: Option<User>,
                      jqlOption: JString, customJql: JString) returns (r: PostOutcome)
    modifies store
    ensures IsNullOrBlank(projectKey) ==> r == PostError(400)
    ensures !IsNullOrBlank(projectKey) && user.None? ==> r == PostError(401)
    ensures !IsNullOrBlank(projectKey) && user.Some? && store == null ==> r == PostError(500)
    ensures r.PostError? && store != null ==> store.entries == old(store.entries)
    ensures r.Redirect? <==> !IsNullOrBlank(projectKey) && user.Some? && store != null
    ensures r.Redirect? ==>
      && r.location == SavedLocation(projectKey.value)
      && store.entries == SavedEntries(old(store.entries), projectKey.value, jqlOption, customJql)
  {
    if IsNullOrBlank(projectKey) {
      return PostError(400);
    }
    if user.None? {
      return PostError(401);
    }
    if store == null {
      return PostError(500);
    }
    var key := projectKey.value;
    var useCustom := ChoosesCustom(jqlOption);
    store.Put(UseCustomKey(key), StringValue(if useCustom then "true" else "false"));
    if useCustom && customJql.Some? && !IsBlank(customJql.value) {
      store.Put(JqlKey(key), StringValue(Trim(customJql.value)));
    } else {
      store.Put(JqlKey(key), StringValue(DefaultJql));
    }
    r := Redirect(SavedLocation(key));
  }
}
