/** The self-updater `WPP_Updater` (wp-packager.php:340-508): the filters it
    registers with WordPress, with the remote `update.json` fetch given as an
    input (`Option<Remote>`, None for the `false` that `get_remote_data`
    returns) and PHP's `version_compare(a, b, '<')` as an uninterpreted
    ordering `versionLess`. */
module Updater {
  import opened Text

  /** The constructor arguments: the plugin's slug, installed version and manifest URL. */
  datatype Updater = Updater(slug: string, currentVersion: string, updateUrl: string)

  /** `$this->slug . '/' . $this->slug . '.php'` */
  function PluginFile(u: Updater): string
  {
    ConventionalMainFile(u.slug)
  }

  /** The decoded manifest. */
  datatype Remote = Remote(
    version: string, tested: string, downloadUrl: string,
    lastUpdated: string, description: string, changelog: string)

  const RepositoryUrl := "https://github.com/spockyto/WP-packager"

  /** One entry of the `response` or `no_update` lists of the update transient. */
  datatype UpdateItem = UpdateItem(
    slug: string, plugin: string, newVersion: string,
    tested: Option<string>, package: string, url: Option<string>)

  /** The value of the `update_plugins` site transient that the filter sees. */
  datatype UpdatePlugins = UpdatePlugins(
    checked: map<string, string>,
    response: map<string, UpdateItem>,
    noUpdate: map<string, UpdateItem>)

  // ---------------------------------------------------------------------
  // check_update
  // ---------------------------------------------------------------------

  /** Whether the manifest offers a newer version than the installed one. */
  predicate UpdateOffered(u: Updater, remote: Option<Remote>, versionLess: (string, string) -> bool)
  {
    remote.Some? && versionLess(u.currentVersion, remote.value.version)
  }

  /** The transient after `check_update`. */
  function CheckedUpdate(u: Updater, t: UpdatePlugins, remote: Option<Remote>,
                         versionLess: (string, string) -> bool): (r: UpdatePlugins)
    ensures |t.checked| == 0 ==> r == t
    ensures r.checked == t.checked
    ensures |t.checked| > 0 ==>
              (PluginFile(u) in r.response <==> UpdateOffered(u, remote, versionLess))
              && (PluginFile(u) in r.response <==> PluginFile(u) !in r.noUpdate)
    ensures r.response - {PluginFile(u)} == t.response - {PluginFile(u)}
    ensures r.noUpdate - {PluginFile(u)} == t.noUpdate - {PluginFile(u)}
  {
    var file := PluginFile(u);
    if |t.checked| == 0 then t
    else if UpdateOffered(u, remote, versionLess) then
      var offer := UpdateItem(u.slug, file, remote.value.version, Some(remote.value.tested),
                              remote.value.downloadUrl, Some(RepositoryUrl));
      t.(response := t.response[file := offer], noUpdate := t.noUpdate - {file})
    else
      var current := UpdateItem(u.slug, file, u.currentVersion, None, "", None);
      t.(noUpdate := t.noUpdate[file := current], response := t.response - {file})
  }

  /** The entry `check_update` leaves for the plugin: the manifest's version
      and package when it is newer, otherwise the installed version with no package. */
  lemma CheckedUpdateEntry(u: Updater, t: UpdatePlugins, remote: Option<Remote>,
                           versionLess: (string, string) -> bool)
    requires |t.checked| > 0
    ensures var r := CheckedUpdate(u, t, remote, versionLess);
            if UpdateOffered(u, remote, versionLess)
            then r.response[PluginFile(u)].newVersion == remote.value.version
                 && r.response[PluginFile(u)].package == remote.value.downloadUrl
            else r.noUpdate[PluginFile(u)].newVersion == u.currentVersion
                 && r.noUpdate[PluginFile(u)].package == ""
  {
  }

  /** Running the filter again with the same manifest changes nothing more. */
  lemma CheckedUpdateIdempotent(u: Updater, t: UpdatePlugins, remote: Option<Remote>,
                                versionLess: (string, string) -> bool)
    ensures var once := CheckedUpdate(u, t, remote, versionLess);
            CheckedUpdate(u, once, remote, versionLess) == once
  {
    var once := CheckedUpdate(u, t, remote, versionLess);
    var file := PluginFile(u);
    if |t.checked| > 0 {
      if UpdateOffered(u, remote, versionLess) {
        assert once.noUpdate - {file} - {file} == once.noUpdate - {file};
      } else {
        assert once.response - {file} - {file} == once.response - {file};
      }
    }
  }

  /** The `update_plugins` transient object, whose lists the filter updates in place. */
  class SiteTransient {
    var checked: map<string, string>
    var response: map<string, UpdateItem>
    var noUpdate: map<string, UpdateItem>

    function Value(): UpdatePlugins
      reads this
    {
      UpdatePlugins(checked, response, noUpdate)
    }

    constructor (v: UpdatePlugins)
      ensures Value() == v
    {
      checked, response, noUpdate := v.checked, v.response, v.noUpdate;
    }
  }

  /** `check_update`: `remote` is what `get_remote_data` would return, and
      `fetched` says whether it was asked at all. */
  method CheckUpdate(u: Updater, t: SiteTransient, remote: Option<Remote>,
                     versionLess: (string, string) -> bool) returns (fetched: bool)
    modifies t
    ensures fetched <==> |old(t.checked)| > 0
    ensures t.Value() == CheckedUpdate(u, old(t.Value()), remote, versionLess)
  {
    if |t.checked| == 0 {
      return false;
    }
    fetched := true;
    var file := PluginFile(u);
    if remote.Some? && versionLess(u.currentVersion, remote.value.version) {
      var res := UpdateItem(u.slug, file, remote.value.version, Some(remote.value.tested),
                            remote.value.downloadUrl, Some(RepositoryUrl));
      t.response := t.response[file := res];
      t.noUpdate := t.noUpdate - {file};
    } else {
      var item := UpdateItem(u.slug, file, u.currentVersion, None, "", None);
      t.noUpdate := t.noUpdate[file := item];
      t.response := t.response - {file};
    }
  }

  // ---------------------------------------------------------------------
  // normalize_source_directory (the path computation)
  // ---------------------------------------------------------------------

  const Separators: set<char> := {'/', '\\'}

  /** WordPress `untrailingslashit`: strips trailing '/' and '\'. */
  function Untrailed(s: string): (r: string)
    ensures |r| <= |s| && r == s[..|r|]
    ensures r != "" ==> r[|r| - 1] !in Separators
    ensures forall k :: |r| <= k < |s| ==> s[k] in Separators
  {
    TrimEnd(s, Separators)
  }

  /** WordPress `trailingslashit`: exactly one trailing '/'. */
  function Trailed(s: string): (r: string)
    ensures r != "" && r[|r| - 1] == '/'
    ensures |r| > 1 ==> r[|r| - 2] !in Separators
    ensures Untrailed(r) == Untrailed(s)
  {
    var u := Untrailed(s);
    assert (u + "/")[..|u|] == u;
    assert Untrailed(u) == u;
    u + "/"
  }

  /** The directory the filter returns, and where it moves the unpacked source to, if anywhere. */
  datatype Normalized = Normalized(source: string, moveTo: Option<string>)

  function NormalizeSource(u: Updater, source: string, remoteSource: string,
                           hookPlugin: Option<string>): (r: Normalized)
    ensures hookPlugin != Some(PluginFile(u)) ==> r == Normalized(source, None)
    ensures hookPlugin == Some(PluginFile(u)) ==>
              r.source == Trailed(Trailed(remoteSource) + u.slug)
              && (r.moveTo.Some? <==> Untrailed(source) != Trailed(remoteSource) + u.slug)
              && (r.moveTo.Some? ==> r.moveTo.value == Trailed(remoteSource) + u.slug)
  {
    if hookPlugin != Some(PluginFile(u)) then Normalized(source, None)
    else
      var corrected := Trailed(remoteSource) + u.slug;
      var move := if Untrailed(source) != corrected then Some(corrected) else None;
      Normalized(Trailed(corrected), move)
  }

  /** A slug that does not end in a separator is kept whole. */
  predicate PlainSlug(slug: string)
  {
    slug != "" && slug[|slug| - 1] !in Separators
  }

  /** For a plain slug the result is `<remote dir>/<slug>/`. */
  lemma NormalizedIsSlugDirectory(u: Updater, source: string, remoteSource: string)
    requires PlainSlug(u.slug)
    ensures NormalizeSource(u, source, remoteSource, Some(PluginFile(u))).source
            == Untrailed(remoteSource) + "/" + u.slug + "/"
  {
    var corrected := Trailed(remoteSource) + u.slug;
    assert Untrailed(corrected) == corrected;
  }

  /** Applying the filter to the directory it returned moves nothing and
      returns the same directory. */
  lemma NormalizeIdempotent(u: Updater, source: string, remoteSource: string)
    requires PlainSlug(u.slug)
    ensures var hook := Some(PluginFile(u));
            var once := NormalizeSource(u, source, remoteSource, hook);
            NormalizeSource(u, once.source, remoteSource, hook) == Normalized(once.source, None)
  {
    var corrected := Trailed(remoteSource) + u.slug;
    assert Untrailed(corrected) == corrected;
    assert (corrected + "/")[..|corrected|] == corrected;
    assert Untrailed(corrected + "/") == corrected;
  }

  /** The idempotence needs a plain slug: with an empty slug the returned
      directory is moved again on the next run. */
  lemma EmptySlugMovesAgain(u: Updater, remoteSource: string)
    requires u.slug == "" && remoteSource == "/tmp"
    ensures var hook := Some(PluginFile(u));
            var once := NormalizeSource(u, "/tmp/x", remoteSource, hook);
            NormalizeSource(u, once.source, remoteSource, hook).moveTo.Some?
  {
    assert Untrailed("/tmp") == "/tmp";
    assert Untrailed("/tmp/") == "/tmp";
  }

  // ---------------------------------------------------------------------
  // should_auto_update, plugin_info, deactivate_before_install
  // ---------------------------------------------------------------------

  /** The `auto_update_plugin` filter: `update` is the incoming value (null,
      true or false), `itemSlug` the slug of the plugin asked about, if set. */
  function ShouldAutoUpdate(u: Updater, update: Option<bool>, itemSlug: Option<string>): (r: Option<bool>)
    ensures itemSlug == Some(u.slug) ==> r == Some(true)
    ensures itemSlug != Some(u.slug) ==> r == update
  {
    if itemSlug.Some? && itemSlug.value == u.slug then Some(true) else update
  }

  /** What `plugin_info` builds for its own slug. */
  datatype PluginInformation = PluginInformation(
    name: string, slug: string, version: string, tested: string, lastUpdated: string,
    description: string, changelog: string, downloadLink: string)

  /** `Unchanged` returns the incoming `$res`. */
  datatype InfoResult = Unchanged | Info(info: PluginInformation)

  /** The filter's result and whether it fetched the manifest. */
  datatype InfoOutcome = InfoOutcome(result: InfoResult, fetched: bool)

  const PluginName := "WP Packager"

  /** The `plugins_api` filter. */
  function PluginInfo(u: Updater, action: string, argsSlug: Option<string>,
                      remote: Option<Remote>): (r: InfoOutcome)
    ensures r.fetched <==> action == "plugin_information" && argsSlug == Some(u.slug)
    ensures r.result.Info? <==> r.fetched && remote.Some?
    ensures r.result.Info? ==>
              r.result.info.slug == u.slug
              && r.result.info.version == remote.value.version
              && r.result.info.downloadLink == remote.value.downloadUrl
              && r.result.info.changelog == remote.value.changelog
  {
    if action != "plugin_information" then InfoOutcome(Unchanged, false)
    else if argsSlug != Some(u.slug) then InfoOutcome(Unchanged, false)
    else if remote.None? then InfoOutcome(Unchanged, true)
    else
      var m := remote.value;
      InfoOutcome(Info(PluginInformation(PluginName, u.slug, m.version, m.tested, m.lastUpdated,
                                         m.description, m.changelog, m.downloadUrl)), true)
  }

  /** The `upgrader_pre_install` filter: the plugin it deactivates, if any
      (the `$response` it receives is returned unchanged). */
  function DeactivateBeforeInstall(u: Updater, hookPlugin: Option<string>): (deactivated: Option<string>)
    ensures deactivated.Some? <==> hookPlugin == Some(PluginFile(u))
    ensures deactivated.Some? ==> deactivated.value == u.slug + "/" + u.slug + ".php"
  {
    if hookPlugin.Some? && hookPlugin.value == PluginFile(u) then hookPlugin else None
  }
}
