# WP Packager in Dafny

WP Packager is a WordPress plugin. It keeps a list of plugin slugs and installs the checked ones one after another from the admin page. This project models its logic and proves properties of the model:

- **Queue** (`queue.dfy`, from `script.js`): the browser-side install queue. `InstallerPage` is a class with:
  - a checkbox array and a status-badge array;
  - the log, the start button and a cursor.

  `Start` is the click handler. `Respond` is the `$.post` callback; it is split into `Settle` and `ProcessPlugin`, as in the source.
- **Installer** (`installer.dfy`): `ajax_install_plugin`, the server side of one queue step. It is a decision tree over what WordPress answers: nonce, capability, repository lookup, installer, installed files and activation.
- **SlugList** (`slug_list.dfy`):
  - the parser that turns the saved textarea into the stored slug list;
  - the list of currently installed slugs;
  - the "Load current Slugs" button, modelled as the class `SlugTextarea`.
- **Updater** (`updater.dfy`): the `WPP_Updater` filters. These are `check_update` (on the class `SiteTransient`), the path part of `normalize_source_directory`, `should_auto_update`, `plugin_info` and `deactivate_before_install`.
- **Text** (`text.dfy`): the string helpers they share. These are `implode`, prefix tests, `trim` over a character set and the `slug/slug.php` path.

Behaviours of the code worth knowing. The model follows the code in each:

- **Invalid nonce.** `check_ajax_referer` ends the request with `-1` and HTTP 403, not with a JSON failure. The jQuery success callback never runs, so the queue stalls on that item instead of continuing. The model returns `Reply.Forbidden`. Only a missing capability gives the JSON error "You do not have permissions.".
- **Fallback activation.** With the fallback path `slug/slug.php`, the result of `activate_plugin` is ignored and the reply is always a success.
- **Installer returning `false`.** When `Plugin_Upgrader::install` returns `false` without a `WP_Error`, the handler goes on as if the install had worked.
- **Current slugs that the save does not keep.** "Load current Slugs" lists every plugin directory other than "." and `wp-packager`. The save then trims, splits at commas and drops falsy entries. So a directory named "0" adds no entry, and a directory name with a comma becomes two entries.

## Model

| member | source | states |
|---|---|---|
| Text.ConventionalMainFile | wp-packager.php:327 | The fallback main file is `slug`, a slash, then `slug.php`. |
| Text.StartsWith | wp-packager.php:312 | Definition of `strpos($file, $prefix) === 0` as a prefix test. It has no contract; FirstWithPrefix states what it selects. |
| Text.Trim | wp-packager.php:129 | Definition of `trim` over a character set: PHP's `trim` with its default set, and JavaScript's `String.prototype.trim` at lines 210-212. Its own contract states only that the result's first and last characters are outside the set and that it keeps only characters of the input. TrimInfix states exactly what it cuts. |
| Text.Join | wp-packager.php:122 | Definition of `implode`. It has no contract; JoinSplit states that it undoes `explode`, and SavedListRoundTrip that the save undoes it on stored lists. |
| Text.TrimInfix | wp-packager.php:129 | `trim` cuts a run of set characters from each end and nothing else: the result is an infix of the input, everything cut is in the set, and the result neither starts nor ends with a set character. |
| Text.TrimPadding | wp-packager.php:129 | Leading set characters in front of a text do not change its trimmed form. |
| Text.TrimEmptyIffAllSpace | wp-packager.php:210 | A textarea value trims to "" exactly when every character of it is one that the trim removes. |
| SlugList.Split | wp-packager.php:129 | `explode(',')` yields at least one piece, and no piece contains a comma. |
| SlugList.JoinSplit | wp-packager.php:129 | Joining the pieces back with the separator gives the original text, so nothing is lost or reordered. |
| SlugList.TrimAll | wp-packager.php:129 | `array_map('trim')` keeps the number and order of pieces and trims each with PHP's trim characters (space, tab, newline, carriage return, NUL and vertical tab). |
| SlugList.KeepTruthy | wp-packager.php:130 | `array_filter` keeps exactly the truthy pieces, so "" and "0" are dropped, and it never adds one. |
| SlugList.Truthy | wp-packager.php:130 | Definition of PHP truthiness of a string: everything except "" and "0". It has no contract; KeepTruthy states how the filter uses it. |
| SlugList.TrimAllAppend | wp-packager.php:129 | Trimming the pieces distributes over concatenation. |
| SlugList.KeepTruthyAppend | wp-packager.php:130 | Filtering distributes over concatenation, so the saved list keeps the comma-split order. |
| SlugList.ParseSlugList | wp-packager.php:129-130 | Definition of the save: `explode(',')`, then `trim` on each piece, then `array_filter`. It has no contract; the lemmas below state its properties. |
| SlugList.ParsedEntriesAreSlugs | wp-packager.php:129-130 | Every stored entry is trimmed, non-empty, not "0" and comma-free. There are no more entries than comma pieces. |
| SlugList.ParsePadded | wp-packager.php:129-130 | PHP's trim characters (space, tab, newline, carriage return, NUL and vertical tab) in front of the text change nothing that is stored, whatever the text. |
| SlugList.ParseAppend | wp-packager.php:129-130 | Parsing `a + "," + b` gives the entries of `a` followed by the entries of `b`. |
| SlugList.SavedListRoundTrip | wp-packager.php:122-130 | Saving the textarea as rendered from a stored list (`implode(', ')`) stores the same list. This holds for the text as the handler receives it; the slashing WordPress applies to `$_POST` is outside the model (see Left out). |
| SlugList.Dirname | wp-packager.php:195 | Definition of `dirname` on plugin-file paths: the text before the last slash, or "." without one. It has no contract; DirnameOfPluginFile states it on `get_plugins()` keys. |
| SlugList.DirnameOfPluginFile | wp-packager.php:195 | `dirname("dir/file.php")` is `dir`, and a single-file plugin's dirname is ".". |
| SlugList.CurrentSlugs | wp-packager.php:194-200 | Listed slugs exclude "." and "wp-packager", and there are no more of them than plugin files. |
| SlugList.CurrentSlugsListed | wp-packager.php:194-200 | Every other plugin's directory is listed, and every listed slug is some plugin's directory. |
| SlugList.CurrentSlugsAppend | wp-packager.php:194-200 | Listing follows `get_plugins()` order: the files that come first contribute first. |
| SlugList.CurrentSlugsSnoc | wp-packager.php:194-200 | One more plugin file contributes its directory at the end of the list, unless it is skipped. |
| SlugList.CollectCurrentSlugs | wp-packager.php:192-200 | The `foreach` with `continue` produces exactly `CurrentSlugs` of the installed files. |
| SlugList.ParseTrailingComma | wp-packager.php:212 | A trailing comma followed only by PHP's trim characters (space, tab, newline, carriage return, NUL and vertical tab) adds no entry to the saved list. |
| SlugList.LoadedText | wp-packager.php:207-216 | Definition of the textarea after a confirmed load. A blank value is replaced by the joined slugs. Otherwise " " is inserted after a trailing comma, and ", " in any other case. It has no contract; the lemmas below state what saving it stores. |
| SlugList.LoadAfterEntry | wp-packager.php:210-212 | When the trimmed list does not end in a comma, the inserted ", " makes the saved list the old entries followed by the entries of the joined slugs. |
| SlugList.LoadAfterTrailingComma | wp-packager.php:210-212 | When the textarea holds no character that JavaScript trims but PHP keeps, and its trimmed text ends in a comma, the inserted " " makes the saved list the old entries followed by the entries of the joined slugs, with no empty entry between them. |
| SlugList.LoadedBlank | wp-packager.php:210-215 | On a textarea that is blank to JavaScript and holds no character that JavaScript trims but PHP keeps, the load writes exactly the joined current slugs. The old text stores nothing, so saving stores what the save makes of the joined slugs. |
| SlugList.LoadAppendsParsedList | wp-packager.php:207-217 | For any current slugs, and a textarea with no character that JavaScript trims but PHP keeps, saving after a confirmed load stores the old entries, then the entries the save makes of `implode(', ', $current_slugs)`. The separator never merges the two lists or adds an entry between them. |
| SlugList.LoadedTextParses | wp-packager.php:207-217 | When the current slugs are trimmed, truthy and comma-free, and the textarea holds no character that JavaScript trims but PHP keeps, saving after the load stores the old entries followed by exactly the current slugs. Like SavedListRoundTrip, it leaves out the slashing of `$_POST`. |
| SlugList.ZeroDirectoryListed | wp-packager.php:194-200 | A plugin directory named "0" is listed as a current slug. |
| SlugList.ZeroIsNoEntry | wp-packager.php:129-130 | The text "0" stores no entry. |
| SlugList.ZeroDirectoryDropped | wp-packager.php:129-130 | When the textarea holds no character that JavaScript trims but PHP keeps, loading the current slug "0" and saving stores the same list as before the load. |
| SlugList.SlugTextarea.constructor | wp-packager.php:122 | The textarea starts as the saved list joined with ", ". |
| SlugList.SlugTextarea.LoadCurrentSlugs | wp-packager.php:207-217 | The user is asked exactly when the trimmed value is non-empty. A refusal leaves the value alone; otherwise it becomes `LoadedText`. |
| Installer.FirstWithPrefix | wp-packager.php:311-316 | It returns None exactly when no file starts with the prefix. Otherwise it returns the first file that does. |
| Installer.FindMainFile | wp-packager.php:308-316 | The `foreach` with `break` finds the first installed file under `slug/`. |
| Installer.InstallOutcome | wp-packager.php:275-334 | Definition of the decision tree as a function of the host's answers. It has no contract; the lemmas below state each branch and SuccessExactly the whole. |
| Installer.AjaxInstallPlugin | wp-packager.php:275-334 | The handler's early returns give the reply and external calls of the decision tree `InstallOutcome`. |
| Installer.ChecksComeFirst | wp-packager.php:277-279 | With a bad nonce or no capability, nothing is looked up, installed or activated. A bad nonce gets the 403, a missing capability gets the permission error. |
| Installer.LookupFailureStops | wp-packager.php:286-290 | A failed lookup replies "Plugin not found in the repository." and the installer is not called. |
| Installer.InstallerCalledWithLookupLink | wp-packager.php:286-294 | The installer is called exactly when the checks pass, and then with the link the lookup returned. |
| Installer.InstallErrorReported | wp-packager.php:294-299 | An install error other than `folder_exists` is the reply, with the installer's message, and nothing is activated. |
| Installer.InstalledOrPresentAlike | wp-packager.php:294-299 | A `folder_exists` error, or a plain `false`, leads to the same outcome as a successful install. |
| Installer.ReinstallIsIdempotent | wp-packager.php:294-299 | A request that succeeded succeeds identically when the installer reports the folder already exists. |
| Installer.NoActivationRequested | wp-packager.php:302-333 | Without the activate flag, every request past the install replies "Completed: Installed (manual activation required).". |
| Installer.ActivatesFirstMatchingFile | wp-packager.php:311-324 | With the flag, the first file under `slug/` is activated. An activation error gives "Installed but failed to activate: " plus its message; otherwise "Completed: Installed and Activated.". |
| Installer.FallbackActivation | wp-packager.php:325-330 | With no file under `slug/`, `slug/slug.php` is activated. The reply is the fallback success whatever the activation returned. |
| Installer.SuccessExactly | wp-packager.php:277-333 | On a valid nonce the reply is JSON. It is a success exactly when the checks, lookup and install pass and no found main file failed to activate. |
| Updater.CheckedUpdate | wp-packager.php:414-452 | An empty `checked` leaves the transient unchanged. Otherwise `slug/slug.php` ends up in `response` exactly when a newer version is offered, and in `no_update` exactly otherwise. Other entries are untouched. |
| Updater.CheckedUpdateEntry | wp-packager.php:428-449 | The response entry carries the remote version and package. The no-update entry carries the installed version and an empty package. |
| Updater.CheckedUpdateIdempotent | wp-packager.php:414-452 | Running the filter again with the same manifest changes nothing. |
| Updater.CheckUpdate | wp-packager.php:414-452 | The in-place update of the transient object yields `CheckedUpdate` of its old value. The manifest is fetched exactly when `checked` is non-empty. |
| Updater.Untrailed | wp-packager.php:383-384 | `untrailingslashit` keeps a prefix of the path, removes only separators, and leaves no separator at the end. |
| Updater.Trailed | wp-packager.php:385 | `trailingslashit` ends the path in exactly one '/', and keeps the same untrailed path. |
| Updater.NormalizeSource | wp-packager.php:374-394 | Other plugins' sources pass through unchanged. WP Packager's own source becomes `<remote>/<slug>/`, and it is moved only when it is elsewhere. |
| Updater.NormalizedIsSlugDirectory | wp-packager.php:383-394 | For a plain slug, the returned directory is the untrailed remote directory, then the slug, then a slash. |
| Updater.NormalizeIdempotent | wp-packager.php:383-394 | Normalizing the returned directory again moves nothing and returns it unchanged. |
| Updater.EmptySlugMovesAgain | wp-packager.php:383-394 | The idempotence needs a plain slug: with an empty slug the result is moved again. |
| Updater.ShouldAutoUpdate | wp-packager.php:397-403 | WP Packager's own slug is always auto-updated; for any other item the incoming decision is kept. |
| Updater.PluginInfo | wp-packager.php:454-483 | The manifest is fetched only for `plugin_information` on its own slug. The information is built exactly when the fetch succeeds, with the remote version, changelog and download link. |
| Updater.DeactivateBeforeInstall | wp-packager.php:366-372 | Only WP Packager's own `slug/slug.php` is deactivated before an install. |
| Queue.Settled | script.js:46-51 | A response settles its row to a terminal badge, which is success exactly when `response.success`. |
| Queue.ResultLine | script.js:46-51 | The result line is green exactly on success and carries the slug and `response.data`. |
| Queue.CheckedRows | script.js:8-10 | The queue is the checked rows, each exactly once, in display order. |
| Queue.RunLogShape | script.js:21-51 | The log is the start line with the item count, then a "processing" line and a result line per answered item, in queue order. |
| Queue.RunLogResults | script.js:46-51 | The coloured lines of the log are the result lines of the answered items, in order. |
| Queue.RespondFollows | script.js:37-55 | A response only moves badges forward: working to terminal, and the next waiting row to working. |
| Queue.Rendered | wp-packager.php:148-179 | The rendered page satisfies the page invariant: every row checked and waiting, select-all checked, the welcome line in the log, the button enabled. |
| Queue.SelectAll | script.js:3-5 | Every row checkbox takes the select-all state, and the page invariant is kept. |
| Queue.SetRow | wp-packager.php:158 | Ticking one row keeps the page invariant. |
| Queue.ProcessNext | script.js:25-45 | Definition of `processPlugin(cursor)` on the page value. It has no contract; ProcessNextValid states the invariant it keeps, and RespondedEffect its effect. |
| Queue.ProcessNextValid | script.js:25-45 | From a state between items, `processPlugin` yields a valid page. It is running exactly when the cursor is inside the queue, and finished otherwise. |
| Queue.Clicked | script.js:7-23 | An empty selection changes nothing. Otherwise the queue is the checked rows, the cursor is 0 and the controls are locked. The log is the start line with the count and the first "processing" line, one request is posted with the auto-activate state, and only the first queued row changes badge, to working. |
| Queue.Locked | script.js:19-21 | Locking the controls and snapshotting a non-empty selection gives a state between items, ready for `processPlugin(0)`. |
| Queue.SettleCurrent | script.js:46-52 | Definition of the callback's own work on the page value. It has no contract; SettleCurrentBetween states the invariant it keeps, and RespondedEffect its effect. |
| Queue.SettleCurrentBetween | script.js:45-52 | Settling the outstanding request of a running page gives a state between items. The row takes the response's badge, and the log gains its result line. |
| Queue.Responded | script.js:45-56 | Success or failure alike, the page stays valid, the queue is unchanged, and the response is recorded. The cursor moves by one, and the run goes on exactly while items remain. |
| Queue.RespondedEffect | script.js:45-56 | A response sets the outstanding row's badge and starts the next row, if any. It logs the result line, then the next "processing" line or the closing line, and posts the next request only while items remain. No badge moves backwards. |
| Queue.AnswerAllFinishes | script.js:45-56 | One response per remaining item brings the run to its end, with every response recorded in order, whatever `#wpp-auto-activate` reads at each step. |
| Queue.RespondedFlags | script.js:35-45 | A response posts the next request, if any, with the auto-activate flag read at that moment. |
| Queue.AnswerAllFlags | script.js:35-56 | While the remaining items are answered, each request carries the flag read when the previous response arrived, in order. |
| Queue.InstallerPage.constructor | wp-packager.php:148-179 | The page object starts as `Rendered`. |
| Queue.InstallerPage.SelectAllChanged | script.js:3-5 | The page object becomes `SelectAll` of its old state and stays valid. |
| Queue.InstallerPage.RowChanged | wp-packager.php:158 | The page object becomes `SetRow` of its old state and stays valid. |
| Queue.InstallerPage.ProcessPlugin | script.js:25-45 | The in-place updates of badges, log, button and requests yield `ProcessNext` of the old state. |
| Queue.InstallerPage.Start | script.js:7-23 | `alerted` holds exactly when nothing is checked. The page object becomes `Clicked` of its old state and stays valid. |
| Queue.InstallerPage.Settle | script.js:45-52 | The in-place updates of the callback yield `SettleCurrent` of the old state. |
| Queue.InstallerPage.Respond | script.js:45-56 | The callback followed by `processPlugin(index + 1)` yields `Responded` of the old state and keeps the page valid. |
| Queue.AtMostOneWorking | script.js:37-56 | On every valid page at most one row is working, and one is exactly while a request is outstanding. Each request is posted only after the previous one was answered. |
| Queue.RunningInOrder | script.js:23-55 | While running, the rows before the cursor are settled, the cursor row is working and later rows still wait. The last log line and the last request are the cursor row's. |
| Queue.FinishedRun | script.js:21-57 | After the last response, every queued row is settled by its own response and the log has 2n+2 lines. These are the start line, the result lines in queue order and the closing line. One request per item was posted in order, and the button reads "finished" and stays disabled. |
| Queue.WholeRun | script.js:7-57 | The click followed by one response per checked item, failures included, finishes. The queue is the checked rows, every response is recorded, and the coloured log lines are the result lines of the items in order. This holds whatever `#wpp-auto-activate` reads at the click and at each step. |
| Queue.WholeRunFlags | script.js:7-57 | Over a whole run, the first request carries the auto-activate flag read at the click, and each later one the flag read when the previous item's response arrived. |

## Left out

- HTML rendering, CSS, asset loading, the admin menu and all translated strings. Log lines and button labels are datatypes, not text.
- WordPress APIs are inputs, not behaviour. `check_ajax_referer`, `current_user_can`, `plugins_api`, `Plugin_Upgrader::install`, `get_plugins` and `activate_plugin` are fields of `Installer.Host`. The `wp_cache_delete` at wp-packager.php:306 is not a field: `Host.installedFiles` is the answer of `get_plugins()` after that flush. `get_option`/`update_option` are not modelled.
- `sanitize_text_field` is taken as the identity on the saved list and on the slug.
- WordPress adds slashes to every `$_POST` value (`wp_magic_quotes`), and the handlers at wp-packager.php:129 and wp-packager.php:281 never call `wp_unslash`. The model parses the text and takes the slug as the browser sent them. In the source, a `'`, `"` or `\` gains a backslash on each save, and the install request's slug is slashed the same way.
- SlugList.SavedListRoundTrip: holds only for slugs without `'`, `"` or `\`. With one, the stored list gains backslashes on every save, because of the slashing above. For example, `a'b` is stored as `a\'b`, and saving that rendered list again stores `a\\\'b`.
- Queue.Clicked: the request's slug is the row's slug text. script.js:33 reads it with jQuery's `.data('slug')`, which converts the attribute. A row "null" is posted with an empty slug, and a row that parses as a JSON array or object, such as "[1]", is posted as that value. RespondedEffect, RunningInOrder and FinishedRun state `sent[j].slug == rows[queue[j]]` under the same simplification. The model does not exclude such rows.
- `get_remote_data` (network I/O with a retry without SSL verification) is not modelled. Its result is an `Option<Remote>` input.
- The `wpp_check` branch of `check_update` is not modelled as a separate case. It fetches the same manifest after deleting the transient, and that deletion is left out.
- PHP `version_compare` is not modelled; it is an uninterpreted `versionLess` parameter.
- The filesystem `exists`/`delete`/`move` in `normalize_source_directory` are not performed. `Normalized.moveTo` records where the source would be moved.
- `auto_update_setting_html` is not modelled: it returns its `$html` argument on both branches.
- Export and import of the JSON list, and the default-file loading, are not modelled. They are file and JSON I/O that store `data['plugins']` wholesale.
- The asynchronous transport of `$.post` is not modelled. A response is the argument of `Respond`. A request that never gets a JSON body (a transport error, or the 403 of an invalid nonce) never calls the callback; that stall is not a step of the model.
- Updater.CheckedUpdate: a transient that is `false` or lacks `checked` counts as empty `checked`; PHP's handling of a non-object transient is not modelled.
- Installer.InstallOutcome: the `activate` flag is a boolean for `isset($_POST['activate']) && $_POST['activate'] == '1'`. PHP's loose comparison of other numeric strings such as "01" is not modelled.
- SlugList.Dirname: `dirname` is modelled for plugin-file paths (no trailing or repeated slashes, no drive letters). Those are the only form `get_plugins()` keys take.
- SlugList.ParseSlugList: the array keys that `array_filter` leaves with gaps are not modelled. The list is a sequence in the same order.
- SlugList.LoadedTextParses: holds only for current slugs that are trimmed, truthy and comma-free, and, because of the `$_POST` slashing, free of `'`, `"` and `\`. Nothing guarantees that of plugin directory names: a directory "0" is dropped by the save (ZeroDirectoryDropped), and one with a comma is split. LoadAppendsParsedList states the general case.
- SlugList.LoadAppendsParsedList: requires that the textarea holds no character that JavaScript trims but PHP keeps, such as U+00A0. LoadAfterTrailingComma, LoadedBlank, LoadedTextParses and ZeroDirectoryDropped carry the same condition. With such a character the two trims disagree. For example, take "a," followed by U+00A0. JavaScript sees a trailing comma and appends only " " and the slugs. PHP keeps U+00A0 as part of the last entry, so loading "b" stores ["a", U+00A0 followed by " b"] and not ["a", U+00A0, "b"]. The same mismatch on a text made only of such characters counts as blank to JavaScript but stores an entry in PHP. So with the text U+00A0 alone, loading "0" replaces it, and the save then stores nothing instead of [U+00A0].
- Queue.InstallerPage.SelectAllChanged: requires that the controls are enabled, because a browser does not dispatch events to disabled checkboxes. The same holds for `RowChanged`, and for `Start` with the disabled button.
- SlugList.SlugTextarea.constructor: takes the list to render as given. In the source, the page that answers a save renders the textarea from the list read at wp-packager.php:95, before the save at lines 128-133 stores the new one. So that page shows the previous list, and saving it again unchanged stores the previous list. The model does not capture this ordering within one page load.
