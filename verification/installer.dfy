/** The server side of one queue step: `WP_Packager::ajax_install_plugin`
    (wp-packager.php:275-334). WordPress itself (the nonce and capability
    checks, the repository lookup, the upgrader, `get_plugins` and
    `activate_plugin`) is represented by the answers it gives, collected in
    `Host`; the handler's own logic is the decision tree over those answers. */
module Installer {
  import opened Text

  /** A `WP_Error`: its code and its message. */
  datatype WpError = WpError(code: string, message: string)

  /** What `Plugin_Upgrader::install` returns: `true`/`false`, or a `WP_Error`. */
  datatype InstallReturn = Installed(ok: bool) | InstallFailed(error: WpError)

  /** The answers of the host platform to the calls the handler makes. */
  datatype Host = Host(
    nonceValid: bool,              // check_ajax_referer('wpp_nonce', 'nonce')
    canInstall: bool,              // current_user_can('install_plugins')
    downloadLink: Option<string>,  // plugins_api(...): None stands for a WP_Error
    install: InstallReturn,        // $upgrader->install($api->download_link)
    activateRequested: bool,       // isset($_POST['activate']) && $_POST['activate'] == '1'
    installedFiles: seq<string>,   // keys of get_plugins() after the cache flush, in order
    activationError: Option<string>) // activate_plugin(...): Some(message) for a WP_Error

  /** The JSON body `wp_send_json_success` / `wp_send_json_error` send. */
  datatype Response = Response(success: bool, data: string)

  /** What the browser receives: a JSON body, or the `-1` with HTTP status
      403 that `check_ajax_referer` dies with when the nonce is invalid. */
  datatype Reply = Json(body: Response) | Forbidden

  /** The external calls the handler made: whether it asked the repository,
      the download link it gave the installer, the plugin file it activated. */
  datatype Calls = Calls(lookedUp: bool, installedFrom: Option<string>, activated: Option<string>)

  datatype Handled = Handled(reply: Reply, calls: Calls)

  const FolderExists := "folder_exists"
  const NoPermission := "You do not have permissions."
  const NotFound := "Plugin not found in the repository."
  const ActivationFailedPrefix := "Installed but failed to activate: "
  const InstalledAndActivated := "Completed: Installed and Activated."
  const FallbackAttempted := "Completed: Installed (activation attempted via fallback)."
  const ManualActivation := "Completed: Installed (manual activation required)."

  /** The first file in `files` that starts with `prefix`. */
  function FirstWithPrefix(files: seq<string>, prefix: string): (r: Option<string>)
    ensures r == None <==> forall k :: 0 <= k < |files| ==> !StartsWith(files[k], prefix)
    ensures r.Some? ==> (exists k :: 0 <= k < |files| && files[k] == r.value
                                     && StartsWith(files[k], prefix)
                                     && forall j :: 0 <= j < k ==> !StartsWith(files[j], prefix))
  {
    if files == [] then None
    else if StartsWith(files[0], prefix) then Some(files[0])
    else
      var r := FirstWithPrefix(files[1..], prefix);
      assert forall j :: 1 <= j < |files| ==> files[j] == files[1..][j - 1];
      r
  }

  /** The `foreach` with `break` that looks for the plugin's main file. */
  method FindMainFile(installedFiles: seq<string>, slug: string) returns (mainFile: Option<string>)
    ensures mainFile == FirstWithPrefix(installedFiles, slug + "/")
  {
    mainFile := None;
    var i := 0;
    while i < |installedFiles|
      invariant 0 <= i <= |installedFiles|
      invariant forall j :: 0 <= j < i ==> !StartsWith(installedFiles[j], slug + "/")
    {
      if StartsWith(installedFiles[i], slug + "/") {
        mainFile := Some(installedFiles[i]);
        break;
      }
      i := i + 1;
    }
    FirstWithPrefixIsFirst(installedFiles, slug + "/", mainFile);
  }

  /** `FirstWithPrefix` is the only answer a first-match search can give. */
  lemma FirstWithPrefixIsFirst(files: seq<string>, prefix: string, found: Option<string>)
    requires found == None ==> forall k :: 0 <= k < |files| ==> !StartsWith(files[k], prefix)
    requires found.Some? ==> (exists k :: 0 <= k < |files| && files[k] == found.value
                                          && StartsWith(files[k], prefix)
                                          && forall j :: 0 <= j < k ==> !StartsWith(files[j], prefix))
    ensures found == FirstWithPrefix(files, prefix)
  {
    var r := FirstWithPrefix(files, prefix);
    if found.Some? && r.Some? {
      var k :| 0 <= k < |files| && files[k] == found.value && StartsWith(files[k], prefix)
               && forall j :: 0 <= j < k ==> !StartsWith(files[j], prefix);
      var m :| 0 <= m < |files| && files[m] == r.value && StartsWith(files[m], prefix)
               && forall j :: 0 <= j < m ==> !StartsWith(files[j], prefix);
      assert k == m;
    }
  }

  /** The decision tree of `ajax_install_plugin`, as a function of the host's answers. */
  function InstallOutcome(slug: string, h: Host): Handled
  {
    if !h.nonceValid then
      Handled(Forbidden, Calls(false, None, None))
    else if !h.canInstall then
      Handled(Json(Response(false, NoPermission)), Calls(false, None, None))
    else if h.downloadLink.None? then
      Handled(Json(Response(false, NotFound)), Calls(true, None, None))
    else
      var link := h.downloadLink.value;
      if h.install.InstallFailed? && h.install.error.code != FolderExists then
        Handled(Json(Response(false, h.install.error.message)), Calls(true, Some(link), None))
      else if !h.activateRequested then
        Handled(Json(Response(true, ManualActivation)), Calls(true, Some(link), None))
      else
        match FirstWithPrefix(h.installedFiles, slug + "/")
        case Some(mainFile) =>
          var reply := if h.activationError.Some?
                       then Response(false, ActivationFailedPrefix + h.activationError.value)
                       else Response(true, InstalledAndActivated);
          Handled(Json(reply), Calls(true, Some(link), Some(mainFile)))
        case None =>
          Handled(Json(Response(true, FallbackAttempted)),
                  Calls(true, Some(link), Some(ConventionalMainFile(slug))))
  }

  /** The handler as it runs: checks first, then the lookup, the install and
      the optional activation, each failure ending the request. */
  method AjaxInstallPlugin(slug: string, h: Host) returns (r: Handled)
    ensures r == InstallOutcome(slug, h)
  {
    if !h.nonceValid {
      return Handled(Forbidden, Calls(false, None, None));
    }
    if !h.canInstall {
      return Handled(Json(Response(false, NoPermission)), Calls(false, None, None));
    }
    if h.downloadLink.None? {
      return Handled(Json(Response(false, NotFound)), Calls(true, None, None));
    }
    var link := h.downloadLink.value;
    var result := h.install;
    if result.InstallFailed? && result.error.code != FolderExists {
      return Handled(Json(Response(false, result.error.message)), Calls(true, Some(link), None));
    }
    if h.activateRequested {
      var mainFile := FindMainFile(h.installedFiles, slug);
      if mainFile.Some? {
        if h.activationError.Some? {
          return Handled(Json(Response(false, ActivationFailedPrefix + h.activationError.value)),
                         Calls(true, Some(link), mainFile));
        }
        return Handled(Json(Response(true, InstalledAndActivated)), Calls(true, Some(link), mainFile));
      } else {
        var fallback := ConventionalMainFile(slug);
        return Handled(Json(Response(true, FallbackAttempted)), Calls(true, Some(link), Some(fallback)));
      }
    }
    return Handled(Json(Response(true, ManualActivation)), Calls(true, Some(link), None));
  }

  // ---------------------------------------------------------------------
  // Properties of the decision tree
  // ---------------------------------------------------------------------

  /** Nothing external happens unless the nonce and the capability check
      pass; an invalid nonce gets no JSON at all, a missing capability gets
      the permission error. */
  lemma ChecksComeFirst(slug: string, h: Host)
    ensures var r := InstallOutcome(slug, h);
            (!h.nonceValid || !h.canInstall) ==>
              r.calls == Calls(false, None, None)
              && r.reply == (if h.nonceValid then Json(Response(false, NoPermission)) else Forbidden)
    ensures var r := InstallOutcome(slug, h);
            r.calls.lookedUp <==> h.nonceValid && h.canInstall
  {
  }

  /** A failed repository lookup is reported and the installer is never called. */
  lemma LookupFailureStops(slug: string, h: Host)
    requires h.nonceValid && h.canInstall && h.downloadLink.None?
    ensures InstallOutcome(slug, h) == Handled(Json(Response(false, NotFound)), Calls(true, None, None))
  {
  }

  /** The installer is called exactly when the checks and the lookup succeed,
      with the link the lookup returned. */
  lemma InstallerCalledWithLookupLink(slug: string, h: Host)
    ensures var r := InstallOutcome(slug, h);
            r.calls.installedFrom == (if h.nonceValid && h.canInstall then h.downloadLink else None)
  {
  }

  /** An install error other than `folder_exists` is the reply, with the installer's message. */
  lemma InstallErrorReported(slug: string, h: Host)
    requires h.nonceValid && h.canInstall && h.downloadLink.Some?
    requires h.install.InstallFailed? && h.install.error.code != FolderExists
    ensures InstallOutcome(slug, h).reply == Json(Response(false, h.install.error.message))
    ensures InstallOutcome(slug, h).calls.activated == None
  {
  }

  /** `folder_exists` is treated exactly like a successful install, and so
      is an install that returns `false` without a `WP_Error`. */
  lemma InstalledOrPresentAlike(slug: string, h: Host, message: string, ok: bool)
    requires h.install == InstallFailed(WpError(FolderExists, message)) || h.install == Installed(ok)
    ensures InstallOutcome(slug, h) == InstallOutcome(slug, h.(install := Installed(true)))
  {
  }

  /** Running the same request twice, the second time against a plugin
      that is already there, succeeds both times. */
  lemma ReinstallIsIdempotent(slug: string, h: Host, message: string)
    requires InstallOutcome(slug, h).reply.Json? && InstallOutcome(slug, h).reply.body.success
    ensures var again := h.(install := InstallFailed(WpError(FolderExists, message)));
            InstallOutcome(slug, again) == InstallOutcome(slug, h)
  {
  }

  /** Without the activate flag every request that gets past the checks, the
      lookup and the install succeeds with the manual-activation message. */
  lemma NoActivationRequested(slug: string, h: Host)
    requires h.nonceValid && h.canInstall && h.downloadLink.Some?
    requires !(h.install.InstallFailed? && h.install.error.code != FolderExists)
    requires !h.activateRequested
    ensures InstallOutcome(slug, h).reply == Json(Response(true, ManualActivation))
    ensures InstallOutcome(slug, h).calls.activated == None
  {
  }

  /** With the activate flag, when some installed file lies under `slug/`,
      the first one is activated and its activation result decides the reply. */
  lemma ActivatesFirstMatchingFile(slug: string, h: Host, k: nat)
    requires h.nonceValid && h.canInstall && h.downloadLink.Some?
    requires !(h.install.InstallFailed? && h.install.error.code != FolderExists)
    requires h.activateRequested
    requires k < |h.installedFiles| && StartsWith(h.installedFiles[k], slug + "/")
    requires forall j :: 0 <= j < k ==> !StartsWith(h.installedFiles[j], slug + "/")
    ensures InstallOutcome(slug, h).calls.activated == Some(h.installedFiles[k])
    ensures InstallOutcome(slug, h).reply ==
            Json(if h.activationError.Some?
                 then Response(false, ActivationFailedPrefix + h.activationError.value)
                 else Response(true, InstalledAndActivated))
  {
    var r := FirstWithPrefix(h.installedFiles, slug + "/");
    FirstWithPrefixIsFirst(h.installedFiles, slug + "/", Some(h.installedFiles[k]));
  }

  /** With the activate flag and no installed file under `slug/`, the
      conventional `slug/slug.php` is activated and the reply is a success
      whatever that activation returned. */
  lemma FallbackActivation(slug: string, h: Host)
    requires h.nonceValid && h.canInstall && h.downloadLink.Some?
    requires !(h.install.InstallFailed? && h.install.error.code != FolderExists)
    requires h.activateRequested
    requires forall k :: 0 <= k < |h.installedFiles| ==> !StartsWith(h.installedFiles[k], slug + "/")
    ensures InstallOutcome(slug, h).calls.activated == Some(slug + "/" + slug + ".php")
    ensures InstallOutcome(slug, h).reply == Json(Response(true, FallbackAttempted))
    ensures forall e :: InstallOutcome(slug, h.(activationError := e)) == InstallOutcome(slug, h)
  {
  }

  /** Every reply the handler sends on a valid nonce is a JSON body, and it
      is a success exactly when the install went through and no activation
      of a main file it found failed. */
  lemma SuccessExactly(slug: string, h: Host)
    requires h.nonceValid
    ensures var r := InstallOutcome(slug, h);
            r.reply.Json? &&
            (r.reply.body.success <==>
               h.canInstall && h.downloadLink.Some?
               && !(h.install.InstallFailed? && h.install.error.code != FolderExists)
               && !(h.activateRequested
                    && FirstWithPrefix(h.installedFiles, slug + "/").Some?
                    && h.activationError.Some?))
  {
  }
}
