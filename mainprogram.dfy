/** The tab bookkeeping of the `RunProgram` window in `mainprogram.py`: the
    id counter `totaltabs`, the list `tabnumbers` that maps each visual
    position to a tab id, the dictionary `alltabdata` keyed by "Tab <id>",
    and the `QTabWidget` strip; the operations that create, look up, rename
    and close tabs, the shutdown sweep, the return value of the save
    routine, and the button-code mapping of `postwarning_option`. Dialog
    replies are parameters. */
module MainProgram {
  import opened PyRuntime
  import opened QtWidgets

  // ---------------------------------------------------------------------
  // Tab records
  // ---------------------------------------------------------------------

  const NewTabType: string := "newtab"
  const ProfileEditorType: string := "ProfileEditor"
  const SignalProcessorIncomplete: string := "SignalProcessor_incomplete"
  const SignalProcessorCompleted: string := "SignalProcessor_completed"

  /** One `alltabdata` entry, reduced to the keys the bookkeeping and the
      shutdown sweep read. `None` stands for a key the entry does not have:
      "tabnum" is only added once the tab is on the strip, and "isprocessing"
      only exists for tab types that run a processor thread. */
  datatype TabRecord = TabRecord(tabtype: string, tabnum: Option<nat>, testvariable: bool, isprocessing: Option<bool>)

  /** The entry `makenewtab` first puts in `alltabdata`. */
  const FreshRecord: TabRecord := TabRecord(NewTabType, None, false, None)

  /** The `alltabdata` key of the tab with id n. */
  function TabKey(n: nat): string
  {
    "Tab " + Str(n)
  }

  /** The label `makenewtab` gives the tab with id n. */
  function NewTabLabel(n: nat): string
  {
    "New Tab #" + Str(n)
  }

  /** Distinct ids have distinct keys, so popping one key never touches
      another tab's entry. */
  lemma TabKeyInjective(a: nat, b: nat)
    ensures TabKey(a) == TabKey(b) ==> a == b
  {
    if TabKey(a) == TabKey(b) {
      assert TabKey(a)[4..] == Str(a);
      assert TabKey(b)[4..] == Str(b);
      StrInjective(a, b);
    }
  }

  /** The keys of the tabs with the given ids, in the same order. */
  function Keys(ids: seq<nat>): (ks: seq<string>)
    ensures |ks| == |ids|
    ensures forall i :: 0 <= i < |ids| ==> ks[i] == TabKey(ids[i])
  {
    seq(|ids|, i requires 0 <= i < |ids| => TabKey(ids[i]))
  }

  /** Strictly increasing ids give pairwise distinct keys. */
  lemma KeysDistinct(ids: seq<nat>)
    requires Increasing(ids)
    ensures Distinct(Keys(ids))
  {
    var ks := Keys(ids);
    forall i, j | 0 <= i < j < |ks| ensures ks[i] != ks[j] {
      TabKeyInjective(ids[i], ids[j]);
    }
  }

  /** Dropping position k from the ids drops position k from their keys. */
  lemma KeysWithout(ids: seq<nat>, k: nat)
    requires k < |ids|
    ensures Keys(ids[..k] + ids[k + 1..]) == Keys(ids)[..k] + Keys(ids)[k + 1..]
  {
  }

  // ---------------------------------------------------------------------
  // The shutdown sweep of closeEvent
  // ---------------------------------------------------------------------

  predicate IsProcessorType(tabtype: string)
  {
    tabtype == SignalProcessorIncomplete || tabtype == SignalProcessorCompleted
  }

  /** The sweep calls `abort()` on this tab's processor. */
  predicate NeedsAbort(rec: TabRecord)
  {
    IsProcessorType(rec.tabtype) && rec.isprocessing == Some(true)
  }

  /** The sweep raises KeyError on this tab. */
  predicate LacksFlag(rec: TabRecord)
  {
    IsProcessorType(rec.tabtype) && rec.isprocessing.None?
  }

  /** The aborts issued by a sweep, and the exception that ended it early, if any. */
  datatype SweepResult = Swept(aborted: seq<string>) | SweepRaised(error: PyError, aborted: seq<string>)

  /** One turn of the loop over `alltabdata`. Closing the figures of a
      ProfileEditor or SignalProcessor tab is not modelled. */
  function SweepStep(aborted: seq<string>, key: string, rec: TabRecord): SweepResult
  {
    if rec.tabtype == ProfileEditorType then Swept(aborted)
    else if IsProcessorType(rec.tabtype) then
      match rec.isprocessing
      case None => SweepRaised(KeyError("isprocessing"), aborted)
      case Some(running) => if running then Swept(aborted + [key]) else Swept(aborted)
    else Swept(aborted)
  }

  /** The loop of closeEvent over the keys in dictionary order: the first
      key whose entry raises stops it. */
  function Sweep(keys: seq<string>, entries: map<string, TabRecord>): (r: SweepResult)
    requires forall k :: k in keys ==> k in entries
    ensures forall k :: k in r.aborted ==> k in keys && NeedsAbort(entries[k])
  {
    if keys == [] then Swept([])
    else
      var prev := Sweep(keys[..|keys| - 1], entries);
      var last := keys[|keys| - 1];
      if prev.SweepRaised? then prev else SweepStep(prev.aborted, last, entries[last])
  }

  /** Once the sweep has raised, later keys are never visited. */
  lemma {:induction false} SweepStopsAtRaise(keys: seq<string>, entries: map<string, TabRecord>, n: nat)
    requires forall k :: k in keys ==> k in entries
    requires n <= |keys| && Sweep(keys[..n], entries).SweepRaised?
    ensures Sweep(keys, entries) == Sweep(keys[..n], entries)
    decreases |keys| - n
  {
    if n < |keys| {
      var init := keys[..|keys| - 1];
      assert init[..n] == keys[..n];
      SweepStopsAtRaise(init, entries, n);
    } else {
      assert keys[..n] == keys;
    }
  }

  /** The sweep raises exactly when some processor tab lacks its
      "isprocessing" entry. */
  lemma {:induction false} SweepRaisesIff(keys: seq<string>, entries: map<string, TabRecord>)
    requires forall k :: k in keys ==> k in entries
    ensures Sweep(keys, entries).SweepRaised? <==> exists k :: k in keys && LacksFlag(entries[k])
  {
    if keys != [] {
      var init := keys[..|keys| - 1];
      var last := keys[|keys| - 1];
      assert keys == init + [last];
      SweepRaisesIff(init, entries);
    }
  }

  /** The last turn of a sweep that runs to the end: the last key is
      appended exactly when its tab is a running processor. */
  lemma SweepLast(keys: seq<string>, entries: map<string, TabRecord>)
    requires forall k :: k in keys ==> k in entries
    requires keys != [] && Sweep(keys, entries).Swept?
    ensures var init := keys[..|keys| - 1]; var last := keys[|keys| - 1];
      && Sweep(init, entries).Swept?
      && Sweep(keys, entries).aborted == Sweep(init, entries).aborted + (if NeedsAbort(entries[last]) then [last] else [])
  {
  }

  /** A sweep that runs to the end aborts each tab that is a running
      processor exactly once (no key twice) and no other tab. */
  lemma {:induction false} SweepAbortsEachRunningOnce(keys: seq<string>, entries: map<string, TabRecord>)
    requires forall k :: k in keys ==> k in entries
    requires Distinct(keys) && Sweep(keys, entries).Swept?
    ensures Distinct(Sweep(keys, entries).aborted)
    ensures forall k :: k in Sweep(keys, entries).aborted <==> k in keys && NeedsAbort(entries[k])
  {
    if keys != [] {
      var init := keys[..|keys| - 1];
      var last := keys[|keys| - 1];
      assert keys == init + [last];
      DistinctInit(keys);
      SweepLast(keys, entries);
      SweepAbortsEachRunningOnce(init, entries);
      var before := Sweep(init, entries).aborted;
      if NeedsAbort(entries[last]) {
        DistinctSnoc(before, last);
      }
    }
  }

  /** What closeEvent does with the event. */
  datatype CloseOutcome = Ignored | Accepted(aborted: seq<string>) | Raised(error: PyError, aborted: seq<string>)

  /** closeEvent as written, for a given state of the attribute
      `preferencesopened` (`None` when it was never assigned; this file
      never assigns it, and never assigns `settingsthread` either). */
  function CloseEventOutcome(reply: Reply, preferencesopened: Option<bool>, alltabdata: Dict<TabRecord>): (r: CloseOutcome)
    requires alltabdata.Valid()
    ensures reply == No <==> r == Ignored
    ensures r.Accepted? ==> preferencesopened == Some(false)
  {
    if reply == No then Ignored
    else
      match preferencesopened
      case None => Raised(AttributeError("preferencesopened"), [])
      case Some(isOpen) =>
        if isOpen then Raised(AttributeError("settingsthread"), [])
        else
          match Sweep(alltabdata.order, alltabdata.entries)
          case Swept(aborted) => Accepted(aborted)
          case SweepRaised(e, aborted) => Raised(e, aborted)
  }

  /** As written, confirming the application close raises AttributeError
      before the sweep, whatever the tabs: no processor is ever aborted,
      even where one is running, and `event.accept()` is never reached. */
  lemma ShutdownAsWrittenRaises(alltabdata: Dict<TabRecord>)
    requires alltabdata.Valid()
    ensures CloseEventOutcome(Yes, None, alltabdata) == Raised(AttributeError("preferencesopened"), [])
    ensures var running := Dict(["Tab 1"], map["Tab 1" := TabRecord(SignalProcessorIncomplete, Some(1), false, Some(true))]);
      running.Valid() &&
      CloseEventOutcome(Yes, None, running).aborted == [] &&
      CloseEventOutcome(Yes, Some(false), running) == Accepted(["Tab 1"])
  {
    var running := Dict(["Tab 1"], map["Tab 1" := TabRecord(SignalProcessorIncomplete, Some(1), false, Some(true))]);
    assert running.order[..0] == [];
    assert Sweep(running.order, running.entries) == Swept(["Tab 1"]);
  }

  /** With the preferences window treated as closed, confirming shutdown
      accepts the event after aborting every running processor exactly
      once, provided every processor tab carries its "isprocessing" flag. */
  lemma {:induction false} ShutdownAbortsEachRunningOnce(alltabdata: Dict<TabRecord>)
    requires alltabdata.Valid()
    requires forall k :: k in alltabdata.entries ==> !LacksFlag(alltabdata.entries[k])
    ensures CloseEventOutcome(Yes, Some(false), alltabdata).Accepted?
    ensures Distinct(CloseEventOutcome(Yes, Some(false), alltabdata).aborted)
    ensures forall k :: k in CloseEventOutcome(Yes, Some(false), alltabdata).aborted <==>
      k in alltabdata.entries && NeedsAbort(alltabdata.entries[k])
  {
    SweepRaisesIff(alltabdata.order, alltabdata.entries);
    SweepAbortsEachRunningOnce(alltabdata.order, alltabdata.entries);
  }

  // ---------------------------------------------------------------------
  // savedataincurtab and postwarning_option
  // ---------------------------------------------------------------------

  /** What `QFileDialog.getExistingDirectory` gave: it raised, or a path
      ("" when the user cancelled). */
  datatype DirChoice = DialogRaised | Chosen(outdir: string)

  /** The value savedataincurtab returns (`None` for the bare `return`) and
      the error box it posts, if any. */
  datatype SaveOutcome = SaveOutcome(returned: Option<bool>, posted: Option<string>)

  const DirectoryError: string := "Error raised in directory selection"
  const SaveError: string := "Filed to save files"

  /** savedataincurtab as written, given the directory choice and the
      result of `whatTab()`. The `return True` in the `finally` block
      replaces the `return False` of the `except` block. */
  function SaveDataInCurTab(dir: DirChoice, lookup: Result<nat>): (r: SaveOutcome)
    ensures r.returned == Some(false) <==> dir == Chosen("")
    ensures r.returned == None <==> dir == DialogRaised
    ensures dir.Chosen? && dir.outdir != "" ==> r.returned == Some(true)
    ensures r.posted.Some? <==> dir == DialogRaised || (dir.Chosen? && dir.outdir != "" && lookup.Err?)
  {
    match dir
    case DialogRaised => SaveOutcome(None, Some(DirectoryError))
    case Chosen(outdir) =>
      if outdir == "" then SaveOutcome(Some(false), None)
      else if lookup.Err? then SaveOutcome(Some(true), Some(SaveError))
      else SaveOutcome(Some(true), None)
  }

  /** savedataincurtab as its `except` block intends: a failed save returns
      False. */
  function SaveDataIntended(dir: DirChoice, lookup: Result<nat>): (r: SaveOutcome)
    ensures r.returned == Some(true) <==> dir.Chosen? && dir.outdir != "" && lookup.Ok?
    ensures r.returned == None <==> dir == DialogRaised
    ensures r.posted.Some? <==> dir == DialogRaised || (dir.Chosen? && dir.outdir != "" && lookup.Err?)
  {
    match dir
    case DialogRaised => SaveOutcome(None, Some(DirectoryError))
    case Chosen(outdir) =>
      if outdir == "" then SaveOutcome(Some(false), None)
      else if lookup.Err? then SaveOutcome(Some(false), Some(SaveError))
      else SaveOutcome(Some(true), None)
  }

  /** As written, the value returned once a directory is chosen does not
      depend on whether the save step failed; the two versions differ
      exactly on a failed lookup after a chosen directory. */
  lemma SaveReturnIgnoresFailure(dir: DirChoice, a: Result<nat>, b: Result<nat>)
    ensures SaveDataInCurTab(dir, a).returned == SaveDataInCurTab(dir, b).returned
    ensures SaveDataInCurTab(dir, a) == SaveDataIntended(dir, a) <==> !(dir.Chosen? && dir.outdir != "" && a.Err?)
    ensures SaveDataInCurTab(Chosen("out"), Err(IndexError)) == SaveOutcome(Some(true), Some(SaveError))
    ensures SaveDataIntended(Chosen("out"), Err(IndexError)) == SaveOutcome(Some(false), Some(SaveError))
  {
  }

  /** The input of the finding: with no tab open, whatTab raises, and a
      save into a chosen directory posts the error yet returns True. */
  lemma SaveWithNoTabReportsSuccess(s: Tabs, outdir: string)
    requires s.Valid() && s.tabWidget.labels == [] && outdir != ""
    ensures s.WhatTab() == Err(IndexError)
    ensures SaveDataInCurTab(Chosen(outdir), s.WhatTab()) == SaveOutcome(Some(true), Some(SaveError))
    ensures SaveDataIntended(Chosen(outdir), s.WhatTab()) == SaveOutcome(Some(false), Some(SaveError))
  {
  }

  /** The code `QMessageBox.exec_()` returned, as postwarning_option names it. */
  function PostWarningOption(outval: int): (option: string)
    ensures option == "okay" <==> outval == OkButton
    ensures option == "cancel" <==> outval == CancelButton
    ensures option == "unknown" <==> outval != OkButton && outval != CancelButton
  {
    if outval == 1024 then "okay"
    else if outval == 4194304 then "cancel"
    else "unknown"
  }

  // ---------------------------------------------------------------------
  // The bookkeeping, as values
  // ---------------------------------------------------------------------

  /** The step of makenewtab that raises, if any. */
  datatype CreateFault =
    | NoFault
      /** building the entry of line 164 raises: nothing is inserted */
    | FailBuildingRecord
      /** setting colours or spacing raises: the entry is inserted, the strip untouched */
    | FailStyling
      /** building the widgets raises: the bookkeeping is already complete */
    | FailBuildingWidgets

  /** The tab reaches the strip and its bookkeeping completes. */
  predicate Completes(fault: CreateFault)
  {
    fault == NoFault || fault == FailBuildingWidgets
  }

  const CreateError: string := "Failed to build new tab"
  const CloseError: string := "Failed to close the current tab"

  /** The bookkeeping of the window: `self.totaltabs`, `self.tabnumbers`,
      the module-level `alltabdata` and the strip of `self.tabWidget`. */
  datatype Tabs = Tabs(totaltabs: nat, tabnumbers: seq<nat>, alltabdata: Dict<TabRecord>, tabWidget: TabWidget) {

    /** What holds in every state, even after a creation that failed half
        way: the live ids were handed out (1 to totaltabs) and are in
        strictly increasing order, and the strip and the dictionary are
        well formed. */
    ghost predicate Wellformed()
    {
      && Increasing(tabnumbers)
      && (forall i :: 0 <= i < |tabnumbers| ==> 1 <= tabnumbers[i] <= totaltabs)
      && tabWidget.Valid()
      && alltabdata.Valid()
    }

    /** The strip, `tabnumbers` and `alltabdata` are in step: one id per
        visual position, the dictionary's keys are those of the ids in the
        same order, and each entry's "tabnum" is its id. */
    ghost predicate Valid()
    {
      && Wellformed()
      && |tabnumbers| == |tabWidget.labels|
      && alltabdata.order == Keys(tabnumbers)
      && (forall i :: 0 <= i < |tabnumbers| ==>
            TabKey(tabnumbers[i]) in alltabdata.entries &&
            alltabdata.entries[TabKey(tabnumbers[i])].tabnum == Some(tabnumbers[i]))
    }

    /** whatTab: the id at the strip's current index, by Python indexing
        (the index is -1 when the strip is empty). */
    function WhatTab(): (r: Result<nat>)
      ensures Valid() ==> (r.Ok? <==> tabWidget.labels != [])
      ensures Valid() && r.Err? ==> r.error == IndexError
      ensures Valid() && r.Ok? ==>
        && r.value == tabnumbers[tabWidget.current]
        && TabKey(r.value) in alltabdata.entries
        && alltabdata.entries[TabKey(r.value)].tabnum == Some(r.value)
    {
      PyIndex(tabnumbers, tabWidget.current)
    }
  }

  /** The state `initUI` leaves: no tab, and no id handed out yet. */
  const NoTabs: Tabs := Tabs(0, [], Dict([], map[]), EmptyTabWidget)

  /** makenewtab's bookkeeping. The id is handed out first (addnewtab), so
      a step that raises leaves `totaltabs` and `tabnumbers` advanced, and
      what was already done stays done. */
  function AfterCreate(s: Tabs, fault: CreateFault): (r: (Tabs, Option<string>))
    ensures r.0.totaltabs == s.totaltabs + 1 && r.0.tabnumbers == s.tabnumbers + [s.totaltabs + 1]
    ensures r.1 == (if fault == NoFault then None else Some(CreateError))
    ensures fault == FailBuildingRecord ==> r.0.alltabdata == s.alltabdata && r.0.tabWidget == s.tabWidget
    ensures fault == FailStyling ==>
      && r.0.tabWidget == s.tabWidget
      && r.0.alltabdata.entries == s.alltabdata.entries[TabKey(s.totaltabs + 1) := FreshRecord]
    ensures Completes(fault) ==>
      && r.0.tabWidget.labels == s.tabWidget.labels + [NewTabLabel(s.totaltabs + 1)]
      && r.0.tabWidget.current == |s.tabWidget.labels|
      && r.0.alltabdata.entries == s.alltabdata.entries[TabKey(s.totaltabs + 1) := FreshRecord.(tabnum := Some(s.totaltabs + 1))]
  {
    var id := s.totaltabs + 1;
    var key := TabKey(id);
    var newtabnum := s.tabWidget.Count();
    var s1 := s.(totaltabs := id, tabnumbers := s.tabnumbers + [id]);
    if fault == FailBuildingRecord then (s1, Some(CreateError))
    else
      var s2 := s1.(alltabdata := s1.alltabdata.Set(key, FreshRecord));
      if fault == FailStyling then (s2, Some(CreateError))
      else
        var strip := s2.tabWidget.AddTab("New Tab").SetCurrentIndex(newtabnum).SetTabText(newtabnum, NewTabLabel(id));
        var d := s2.alltabdata.Set(key, s2.alltabdata.entries[key].(tabnum := Some(id)));
        (s2.(tabWidget := strip, alltabdata := d), if fault == FailBuildingWidgets then Some(CreateError) else None)
  }

  /** No id above the counter has its key in the dictionary. */
  lemma FreshKey(s: Tabs)
    requires s.Valid()
    ensures forall n :: n > s.totaltabs ==> TabKey(n) !in s.alltabdata.entries
  {
    forall n | n > s.totaltabs ensures TabKey(n) !in s.alltabdata.entries {
      forall i | 0 <= i < |s.tabnumbers| ensures s.alltabdata.order[i] != TabKey(n) {
        TabKeyInjective(s.tabnumbers[i], n);
      }
    }
  }

  /** A creation that completes keeps the three structures in step and puts
      the new key last in the dictionary; one that raises before the strip
      leaves `tabnumbers` one longer than the strip. */
  lemma CreateKeepsValid(s: Tabs, fault: CreateFault)
    requires s.Valid()
    ensures var t := AfterCreate(s, fault).0;
      && (Completes(fault) ==> t.Valid() && t.alltabdata.order == s.alltabdata.order + [TabKey(t.totaltabs)])
      && (!Completes(fault) ==> |t.tabnumbers| == |t.tabWidget.labels| + 1 && !t.Valid())
  {
    if Completes(fault) {
      CompletedCreateValid(s, fault);
    }
  }

  lemma CompletedCreateValid(s: Tabs, fault: CreateFault)
    requires s.Valid() && Completes(fault)
    ensures var t := AfterCreate(s, fault).0;
      t.Valid() && t.alltabdata.order == s.alltabdata.order + [TabKey(t.totaltabs)]
  {
    var id := s.totaltabs + 1;
    var ids := s.tabnumbers;
    var t := AfterCreate(s, fault).0;
    CreateKeepsWellformed(s, fault);
    FreshKey(s);
    assert TabKey(id) !in s.alltabdata.entries;
    assert t.alltabdata.order == s.alltabdata.order + [TabKey(id)];
    assert Keys(ids + [id]) == Keys(ids) + [TabKey(id)];
    var e := t.alltabdata.entries;
    forall i | 0 <= i < |t.tabnumbers| ensures TabKey(t.tabnumbers[i]) in e && e[TabKey(t.tabnumbers[i])].tabnum == Some(t.tabnumbers[i]) {
      if i < |ids| {
        TabKeyInjective(ids[i], id);
        assert t.tabnumbers[i] == ids[i];
      }
    }
  }

  /** renametab: on ok, only the label at the current index changes; on
      cancel nothing does. The dictionary is never touched. */
  function AfterRename(s: Tabs, ok: bool, name: string): (r: Tabs)
    ensures r.totaltabs == s.totaltabs && r.tabnumbers == s.tabnumbers && r.alltabdata == s.alltabdata
    ensures r.tabWidget.current == s.tabWidget.current && |r.tabWidget.labels| == |s.tabWidget.labels|
    ensures !ok ==> r == s
    ensures s.Wellformed() && s.tabWidget.labels == [] ==> r == s
    ensures s.Wellformed() && ok && s.tabWidget.labels != [] ==>
      r.tabWidget.labels == s.tabWidget.labels[s.tabWidget.current := name]
    ensures s.Wellformed() ==> r.Wellformed()
    ensures s.Valid() ==> r.Valid()
  {
    var curtab := s.tabWidget.current;
    if ok then s.(tabWidget := s.tabWidget.SetTabText(curtab, name)) else s
  }

  /** The user picks the tab at `index` on the strip. */
  function AfterSelect(s: Tabs, index: int): (r: Tabs)
    ensures r.totaltabs == s.totaltabs && r.tabnumbers == s.tabnumbers && r.alltabdata == s.alltabdata
    ensures r.tabWidget.labels == s.tabWidget.labels
    ensures 0 <= index < |s.tabWidget.labels| ==> r.tabWidget.current == index
    ensures s.Wellformed() ==> r.Wellformed()
    ensures s.Valid() ==> r.Valid()
  {
    s.(tabWidget := s.tabWidget.SetCurrentIndex(index))
  }

  /** closecurrenttab. On Yes: look up the current id, remove the tab from
      the strip, pop its key from the dictionary, pop its position from
      `tabnumbers`. The first step that raises posts the error box and the
      earlier steps stay done. On No nothing changes. */
  function AfterClose(s: Tabs, reply: Reply): (r: (Tabs, Option<string>))
    ensures r.0.totaltabs == s.totaltabs
    ensures reply == No ==> r == (s, None)
    ensures reply == Yes && s.WhatTab().Err? ==> r == (s, Some(CloseError))
    ensures s.Valid() && s.tabWidget.labels == [] ==> r.0 == s
    ensures reply == Yes && s.WhatTab().Ok? && TabKey(s.WhatTab().value) !in s.alltabdata.entries ==>
      r == (s.(tabWidget := s.tabWidget.RemoveTab(s.tabWidget.current)), Some(CloseError))
    ensures reply == Yes && s.WhatTab().Ok? && TabKey(s.WhatTab().value) in s.alltabdata.entries ==>
      && r.1 == None
      && r.0.tabWidget == s.tabWidget.RemoveTab(s.tabWidget.current)
      && r.0.alltabdata.entries == s.alltabdata.entries - {TabKey(s.WhatTab().value)}
      && |r.0.tabnumbers| + 1 == |s.tabnumbers|
      && r.0.tabnumbers == PyPop(s.tabnumbers, s.tabWidget.current).value
      && r.0.alltabdata == s.alltabdata.Pop(TabKey(s.WhatTab().value)).value
  {
    if reply == No then (s, None)
    else
      match s.WhatTab()
      case Err(_) => (s, Some(CloseError))
      case Ok(curtab) =>
        var indextoclose := s.tabWidget.current;
        var s1 := s.(tabWidget := s.tabWidget.RemoveTab(indextoclose));
        match s.alltabdata.Pop(TabKey(curtab))
        case Err(_) => (s1, Some(CloseError))
        case Ok(d) =>
          // cannot raise: the same index has just been read by whatTab
          var remaining := PyPop(s.tabnumbers, indextoclose).value;
          (s1.(tabnumbers := remaining, alltabdata := d), None)
  }

  /** Dropping one id, with a well-formed strip and dictionary in place of
      the old ones, keeps the state well formed. */
  lemma DropKeepsWellformed(s: Tabs, k: nat, w: TabWidget, d: Dict<TabRecord>)
    requires k < |s.tabnumbers|
    ensures s.Wellformed() && w.Valid() && d.Valid() ==>
      s.(tabnumbers := s.tabnumbers[..k] + s.tabnumbers[k + 1..], tabWidget := w, alltabdata := d).Wellformed()
  {
    if s.Wellformed() {
      var ids := s.tabnumbers;
      var rest := ids[..k] + ids[k + 1..];
      IncreasingWithout(ids, k);
      forall j | 0 <= j < |rest| ensures 1 <= rest[j] <= s.totaltabs {
        var j' := if j < k then j else j + 1;
        assert rest[j] == ids[j'];
      }
    }
  }

  /** A creation, whether it completes or not, keeps the state well
      formed: the new id is above every live id. */
  lemma CreateKeepsWellformed(s: Tabs, fault: CreateFault)
    requires s.Wellformed()
    ensures AfterCreate(s, fault).0.Wellformed()
  {
  }

  /** A close, whatever step raises, keeps the state well formed. */
  lemma CloseKeepsWellformed(s: Tabs, reply: Reply)
    requires s.Wellformed()
    ensures AfterClose(s, reply).0.Wellformed()
  {
    if reply == Yes && s.WhatTab().Ok? && TabKey(s.WhatTab().value) in s.alltabdata.entries {
      var i := s.tabWidget.current;
      var k := Position(|s.tabnumbers|, i);
      DropKeepsWellformed(s, k, s.tabWidget.RemoveTab(i), s.alltabdata.Pop(TabKey(s.WhatTab().value)).value);
    }
  }

  /** One action keeps the state well formed. */
  lemma StepKeepsWellformed(s: Tabs, a: Action)
    requires s.Wellformed()
    ensures Step(s, a).Wellformed() && Step(s, a).totaltabs >= s.totaltabs
  {
    match a
    case NewTab(fault) => CreateKeepsWellformed(s, fault);
    case Rename(ok, name) =>
    case Select(index) =>
    case CloseTab(reply) => CloseKeepsWellformed(s, reply);
  }

  /** Closing on Yes with a tab open removes exactly the current position
      from the strip, from `tabnumbers` and from the dictionary's order,
      and exactly the current id's key from the dictionary; the order of the
      others and the counter are unchanged, the three stay in step, and the
      closed id is gone. */
  lemma CloseRemovesCurrent(s: Tabs)
    requires s.Valid() && s.tabWidget.labels != []
    ensures var i := s.tabWidget.current; var id := s.tabnumbers[i]; var t := AfterClose(s, Yes);
      && s.WhatTab() == Ok(id)
      && t.1 == None
      && t.0.totaltabs == s.totaltabs
      && t.0.tabnumbers == s.tabnumbers[..i] + s.tabnumbers[i + 1..]
      && t.0.tabWidget.labels == s.tabWidget.labels[..i] + s.tabWidget.labels[i + 1..]
      && t.0.alltabdata.order == s.alltabdata.order[..i] + s.alltabdata.order[i + 1..]
      && t.0.alltabdata.entries == s.alltabdata.entries - {TabKey(id)}
      && t.0.Valid()
      && id !in t.0.tabnumbers
  {
    var i := s.tabWidget.current;
    var ids := s.tabnumbers;
    var rest := ids[..i] + ids[i + 1..];
    CloseKeepsWellformed(s, Yes);
    var d' := PopAt(ids, i, s.alltabdata);
    KeysWithout(ids, i);
    RemainingEntries(ids, i, s.alltabdata);
    IdLeaves(ids, i);
  }

  /** A closed id is no longer among the ids. */
  lemma IdLeaves(ids: seq<nat>, i: nat)
    requires Increasing(ids) && i < |ids|
    ensures ids[i] !in ids[..i] + ids[i + 1..]
  {
    var rest := ids[..i] + ids[i + 1..];
    forall j | 0 <= j < |rest| ensures rest[j] != ids[i] {
      var j' := if j < i then j else j + 1;
      assert rest[j] == ids[j'];
    }
  }

  /** Popping the key at position i of the order succeeds and removes that
      position. */
  lemma PopAt(ids: seq<nat>, i: nat, d: Dict<TabRecord>) returns (d': Dict<TabRecord>)
    requires d.Valid() && d.order == Keys(ids) && i < |ids|
    ensures d.Pop(TabKey(ids[i])) == Ok(d')
    ensures d'.order == d.order[..i] + d.order[i + 1..] && d'.entries == d.entries - {TabKey(ids[i])}
  {
    assert d.order[i] == TabKey(ids[i]);
    d' := d.Pop(TabKey(ids[i])).value;
  }

  /** Taking the key of position i out of the entries leaves the entries of
      every other id as they were. */
  lemma RemainingEntries(ids: seq<nat>, i: nat, d: Dict<TabRecord>)
    requires Increasing(ids) && i < |ids|
    requires forall j :: 0 <= j < |ids| ==> TabKey(ids[j]) in d.entries && d.entries[TabKey(ids[j])].tabnum == Some(ids[j])
    ensures var rest := ids[..i] + ids[i + 1..]; var e := d.entries - {TabKey(ids[i])};
      forall j :: 0 <= j < |rest| ==> TabKey(rest[j]) in e && e[TabKey(rest[j])].tabnum == Some(rest[j])
  {
    var rest := ids[..i] + ids[i + 1..];
    var e := d.entries - {TabKey(ids[i])};
    forall j | 0 <= j < |rest| ensures TabKey(rest[j]) in e && e[TabKey(rest[j])].tabnum == Some(rest[j]) {
      var j' := if j < i then j else j + 1;
      assert rest[j] == ids[j'];
      TabKeyInjective(ids[j'], ids[i]);
    }
  }

  // ---------------------------------------------------------------------
  // Sequences of user actions
  // ---------------------------------------------------------------------

  /** A menu action or a click the event loop delivers, with the dialog
      reply it needs. */
  datatype Action =
    | NewTab(fault: CreateFault)
    | Rename(ok: bool, name: string)
    | Select(index: int)
    | CloseTab(reply: Reply)

  function Step(s: Tabs, a: Action): Tabs
  {
    match a
    case NewTab(fault) => AfterCreate(s, fault).0
    case Rename(ok, name) => AfterRename(s, ok, name)
    case Select(index) => AfterSelect(s, index)
    case CloseTab(reply) => AfterClose(s, reply).0
  }

  /** The state after the actions, one after the other. */
  function Run(s: Tabs, actions: seq<Action>): Tabs
    decreases |actions|
  {
    if actions == [] then s else Run(Step(s, actions[0]), actions[1..])
  }

  /** No action lowers the counter, and every action keeps the state well
      formed. */
  lemma {:induction false} RunKeepsWellformed(s: Tabs, actions: seq<Action>)
    requires s.Wellformed()
    ensures Run(s, actions).Wellformed() && Run(s, actions).totaltabs >= s.totaltabs
    decreases |actions|
  {
    if actions != [] {
      StepKeepsWellformed(s, actions[0]);
      RunKeepsWellformed(Step(s, actions[0]), actions[1..]);
    }
  }

  /** Ids are never reused: whatever happens after an id k was handed out,
      including closing its tab, the next creation hands out an id above k,
      and above every live id. */
  lemma IdsNeverReused(s: Tabs, actions: seq<Action>, fault: CreateFault, k: nat)
    requires s.Wellformed() && k <= s.totaltabs
    ensures var before := Run(s, actions); var id := AfterCreate(before, fault).0.totaltabs;
      id > k && id !in before.tabnumbers
  {
    RunKeepsWellformed(s, actions);
  }

  /** A close leaves only ids and keys that were already there. */
  lemma CloseOnlyRemoves(s: Tabs, reply: Reply)
    ensures var t := AfterClose(s, reply).0;
      && (forall x :: x in t.tabnumbers ==> x in s.tabnumbers)
      && t.alltabdata.entries.Keys <= s.alltabdata.entries.Keys
  {
  }

  /** One action never brings back an absent id that has already been
      handed out, nor its key: a creation adds only the new id and its key,
      and a close only removes. */
  lemma StepKeepsOut(s: Tabs, a: Action, k: nat)
    requires k <= s.totaltabs
    ensures Step(s, a).totaltabs >= s.totaltabs
    ensures TabKey(k) !in s.alltabdata.entries ==> TabKey(k) !in Step(s, a).alltabdata.entries
    ensures k !in s.tabnumbers ==> k !in Step(s, a).tabnumbers
  {
    match a
    case NewTab(fault) =>
      TabKeyInjective(k, s.totaltabs + 1);
      assert Step(s, a).tabnumbers == s.tabnumbers + [s.totaltabs + 1];
    case Rename(ok, name) =>
    case Select(index) =>
    case CloseTab(reply) =>
      CloseOnlyRemoves(s, reply);
  }

  /** The key of an id that has been handed out and is no longer in the
      dictionary stays out of it, whatever follows, failed creations
      included. */
  lemma {:induction false} ClosedKeyStaysOut(s: Tabs, actions: seq<Action>, k: nat)
    requires k <= s.totaltabs && TabKey(k) !in s.alltabdata.entries
    ensures TabKey(k) !in Run(s, actions).alltabdata.entries
    decreases |actions|
  {
    if actions != [] {
      StepKeepsOut(s, actions[0], k);
      ClosedKeyStaysOut(Step(s, actions[0]), actions[1..], k);
    }
  }

  /** An id that has been handed out and is no longer in `tabnumbers` stays
      out of it, whatever follows, failed creations included. */
  lemma {:induction false} ClosedIdStaysOut(s: Tabs, actions: seq<Action>, k: nat)
    requires k <= s.totaltabs && k !in s.tabnumbers
    ensures k !in Run(s, actions).tabnumbers
    decreases |actions|
  {
    if actions != [] {
      StepKeepsOut(s, actions[0], k);
      ClosedIdStaysOut(Step(s, actions[0]), actions[1..], k);
    }
  }

  /** Once the current tab of an in-step window is closed, its id and its
      key never come back, whatever follows. */
  lemma ClosedTabStaysClosed(s: Tabs, actions: seq<Action>)
    requires s.Valid() && s.tabWidget.labels != []
    ensures var id := s.tabnumbers[s.tabWidget.current]; var later := Run(AfterClose(s, Yes).0, actions);
      && id !in later.tabnumbers
      && TabKey(id) !in later.alltabdata.entries
  {
    var id := s.tabnumbers[s.tabWidget.current];
    var t := AfterClose(s, Yes).0;
    CloseRemovesCurrent(s);
    ClosedIdStaysOut(t, actions, id);
    ClosedKeyStaysOut(t, actions, id);
  }

  /** One action keeps the strip, `tabnumbers` and the dictionary in step,
      unless it is a creation that raises before the strip is reached. */
  lemma StepKeepsValid(s: Tabs, a: Action)
    requires s.Valid()
    requires a.NewTab? ==> Completes(a.fault)
    ensures Step(s, a).Valid()
  {
    match a
    case NewTab(fault) =>
      CreateKeepsValid(s, fault);
    case Rename(ok, name) =>
      assert Step(s, a) == AfterRename(s, ok, name);
    case Select(index) =>
      assert Step(s, a) == AfterSelect(s, index);
    case CloseTab(reply) =>
      assert Step(s, a) == AfterClose(s, reply).0;
      if reply == Yes && s.tabWidget.labels != [] {
        CloseRemovesCurrent(s);
      }
  }

  /** Every sequence of renames, selections, closes and creations that
      complete keeps the strip, `tabnumbers` and the dictionary in step. */
  lemma {:induction false} RunKeepsValid(s: Tabs, actions: seq<Action>)
    requires s.Valid()
    requires forall j :: 0 <= j < |actions| && actions[j].NewTab? ==> Completes(actions[j].fault)
    ensures Run(s, actions).Valid()
    decreases |actions|
  {
    if actions != [] {
      StepKeepsValid(s, actions[0]);
      RunKeepsValid(Step(s, actions[0]), actions[1..]);
    }
  }

  // ---------------------------------------------------------------------
  // Scenarios
  // ---------------------------------------------------------------------

  /** Startup: `__init__` runs makenewtab once on the empty window, which
      yields one tab with id 1, current, labelled "New Tab #1". */
  lemma Startup() returns (s: Tabs)
    ensures s == AfterCreate(NoTabs, NoFault).0
    ensures s.Valid()
    ensures s.totaltabs == 1 && s.tabnumbers == [1] && s.alltabdata.order == [TabKey(1)]
    ensures s.tabWidget == TabWidget([NewTabLabel(1)], 0)
  {
    s := AfterCreate(NoTabs, NoFault).0;
    CreateKeepsValid(NoTabs, NoFault);
  }

  /** A creation that fails before its entry is inserted leaves an orphan id
      at the end of `tabnumbers`. The next tab then sits at a strip position
      whose entry in `tabnumbers` is the orphan: whatTab names the orphan id
      for the tab labelled with the newer one, and closing that tab removes
      it from the strip but raises KeyError on the orphan's key, so the
      newer key stays in the dictionary with no tab left to close it. From
      the window as `__init__` leaves it: "New Tab #3" resolves to id 2. */
  lemma FailedCreationDesynchronises(s: Tabs)
    requires s.Valid()
    ensures var orphan := s.totaltabs + 1; var id := s.totaltabs + 2; var n := |s.tabWidget.labels|;
      var s1 := AfterCreate(s, FailBuildingRecord).0;
      var s2 := AfterCreate(s1, NoFault).0;
      var s3 := AfterClose(s2, Yes);
      && s1.tabnumbers == s.tabnumbers + [orphan] && s1.tabWidget == s.tabWidget
      && s2.tabnumbers == s.tabnumbers + [orphan, id]
      && s2.tabWidget.labels == s.tabWidget.labels + [NewTabLabel(id)] && s2.tabWidget.current == n
      && s2.WhatTab() == Ok(orphan)
      && s3.1 == Some(CloseError)
      && s3.0.tabWidget.labels == s.tabWidget.labels
      && s3.0.tabnumbers == s2.tabnumbers
      && TabKey(id) in s3.0.alltabdata.entries
  {
    var orphan := s.totaltabs + 1;
    var id := s.totaltabs + 2;
    var s1 := AfterCreate(s, FailBuildingRecord).0;
    var s2 := AfterCreate(s1, NoFault).0;
    assert s2.WhatTab() == Ok(orphan);
    FreshKey(s);
    TabKeyInjective(orphan, id);
    assert TabKey(orphan) !in s2.alltabdata.entries;
  }

  /** A creation that fails after its entry is inserted (while styling,
      lines 167-169) also leaves an orphan id, but this time with an entry.
      The next tab again resolves to the orphan, and closing it succeeds
      without any error box: it removes the new tab from the strip and pops
      the orphan's entry and the orphan id, while the closed tab's own id
      and entry stay. */
  lemma StyledFailureClosesWrongEntry(s: Tabs)
    requires s.Valid()
    ensures var orphan := s.totaltabs + 1; var id := s.totaltabs + 2;
      var s1 := AfterCreate(s, FailStyling).0;
      var s2 := AfterCreate(s1, NoFault).0;
      var s3 := AfterClose(s2, Yes);
      && TabKey(orphan) in s1.alltabdata.entries && s1.tabWidget == s.tabWidget
      && s2.WhatTab() == Ok(orphan)
      && s2.tabWidget.labels == s.tabWidget.labels + [NewTabLabel(id)]
      && s3.1 == None
      && s3.0.tabWidget.labels == s.tabWidget.labels
      && s3.0.tabnumbers == s.tabnumbers + [id]
      && TabKey(id) in s3.0.alltabdata.entries
      && TabKey(orphan) !in s3.0.alltabdata.entries
  {
    var orphan := s.totaltabs + 1;
    var id := s.totaltabs + 2;
    var n := |s.tabnumbers|;
    var s2 := StyledFailureThenCreate(s);
    var s3 := AfterClose(s2, Yes);
    assert s3.0.tabnumbers == s2.tabnumbers[..n] + s2.tabnumbers[n + 1..];
    assert s2.tabnumbers[..n] + s2.tabnumbers[n + 1..] == s.tabnumbers + [id];
  }

  /** The state the creations of StyledFailureClosesWrongEntry leave. */
  lemma StyledFailureThenCreate(s: Tabs) returns (s2: Tabs)
    requires s.Valid()
    ensures var orphan := s.totaltabs + 1; var id := s.totaltabs + 2; var s1 := AfterCreate(s, FailStyling).0;
      && TabKey(orphan) in s1.alltabdata.entries && s1.tabWidget == s.tabWidget
      && s2 == AfterCreate(s1, NoFault).0
      && s2.tabnumbers == s.tabnumbers + [orphan, id]
      && s2.tabWidget.labels == s.tabWidget.labels + [NewTabLabel(id)]
      && s2.tabWidget.current == |s.tabnumbers|
      && s2.WhatTab() == Ok(orphan)
      && TabKey(orphan) in s2.alltabdata.entries && TabKey(id) in s2.alltabdata.entries
      && TabKey(orphan) != TabKey(id)
  {
    var orphan := s.totaltabs + 1;
    var id := s.totaltabs + 2;
    FreshKey(s);
    TabKeyInjective(orphan, id);
    var s1 := AfterCreate(s, FailStyling).0;
    assert s1.alltabdata.entries == s.alltabdata.entries[TabKey(orphan) := FreshRecord];
    s2 := AfterCreate(s1, NoFault).0;
    assert s2.tabWidget.current == |s.tabnumbers|;
  }

  /** The same from the window as `__init__` leaves it. */
  lemma FirstFailedCreation()
    ensures var s2 := AfterCreate(AfterCreate(AfterCreate(NoTabs, NoFault).0, FailBuildingRecord).0, NoFault).0;
      s2.tabWidget.labels == [NewTabLabel(1), NewTabLabel(3)] && s2.WhatTab() == Ok(2)
  {
    var s0 := Startup();
    FailedCreationDesynchronises(s0);
  }

  // ---------------------------------------------------------------------
  // The window
  // ---------------------------------------------------------------------

  class RunProgram {
    var totaltabs: nat
    var tabnumbers: seq<nat>
    /** The module-level `alltabdata` dictionary. */
    var alltabdata: Dict<TabRecord>
    /** The strip of `self.tabWidget`. */
    var tabWidget: TabWidget

    function State(): Tabs
      reads this
    {
      Tabs(totaltabs, tabnumbers, alltabdata, tabWidget)
    }

    /** The live ids are increasing and within the counter, and the strip
        and the dictionary are well formed. */
    ghost predicate Wellformed()
      reads this
    {
      State().Wellformed()
    }

    /** `__init__`: `initUI` sets up the empty window, then makenewtab opens
        the first tab. */
    constructor (fault: CreateFault)
      ensures Wellformed() && totaltabs == 1
      ensures State() == AfterCreate(NoTabs, fault).0
    {
      totaltabs := 0;
      tabnumbers := [];
      alltabdata := Dict([], map[]);
      tabWidget := EmptyTabWidget;
      new;
      var _ := MakeNewTab(fault);
    }

    /** addnewtab: hands out the next id, appends it to `tabnumbers`, and
        returns the position the new tab will take on the strip with its
        dictionary key. */
    method AddNewTab() returns (newtabnum: nat, curtabstr: string)
      requires Wellformed()
      modifies this
      ensures Wellformed()
      ensures totaltabs == old(totaltabs) + 1 && totaltabs !in old(tabnumbers)
      ensures tabnumbers == old(tabnumbers) + [totaltabs]
      ensures newtabnum == |tabWidget.labels| && curtabstr == TabKey(totaltabs)
      ensures old(State().Valid()) ==> newtabnum < |tabnumbers| && tabnumbers[newtabnum] == totaltabs
      ensures tabWidget == old(tabWidget) && alltabdata == old(alltabdata)
    {
      totaltabs := totaltabs + 1;
      tabnumbers := tabnumbers + [totaltabs];
      newtabnum := tabWidget.Count();
      curtabstr := TabKey(totaltabs);
    }

    /** makenewtab, reduced to its bookkeeping; `fault` names the step that
        raises, if any. */
    method MakeNewTab(fault: CreateFault) returns (error: Option<string>)
      requires Wellformed()
      modifies this
      ensures Wellformed()
      ensures totaltabs == old(totaltabs) + 1 && totaltabs !in old(tabnumbers)
      ensures (State(), error) == AfterCreate(old(State()), fault)
    {
      ghost var s := State();
      CreateKeepsWellformed(s, fault);
      var newtabnum, curtabstr := AddNewTab();
      assert newtabnum == s.tabWidget.Count() && curtabstr == TabKey(s.totaltabs + 1);
      if fault == FailBuildingRecord {
        return Some(CreateError);
      }
      alltabdata := alltabdata.Set(curtabstr, FreshRecord);
      if fault == FailStyling {
        return Some(CreateError);
      }
      tabWidget := tabWidget.AddTab("New Tab");
      tabWidget := tabWidget.SetCurrentIndex(newtabnum);
      tabWidget := tabWidget.SetTabText(newtabnum, NewTabLabel(totaltabs));
      alltabdata := alltabdata.Set(curtabstr, alltabdata.entries[curtabstr].(tabnum := Some(totaltabs)));
      error := if fault == FailBuildingWidgets then Some(CreateError) else None;
      assert (State(), error) == AfterCreate(s, fault);
    }

    /** renametab, given the reply of the input dialog. */
    method RenameTab(ok: bool, name: string)
      requires Wellformed()
      modifies this
      ensures Wellformed()
      ensures State() == AfterRename(old(State()), ok, name)
    {
      var curtab := tabWidget.current;
      if ok {
        tabWidget := tabWidget.SetTabText(curtab, name);
      }
    }

    /** The user picks another tab on the strip. */
    method SelectTab(index: int)
      requires Wellformed()
      modifies this
      ensures Wellformed()
      ensures State() == AfterSelect(old(State()), index)
    {
      tabWidget := tabWidget.SetCurrentIndex(index);
    }

    /** closecurrenttab, given the reply of the confirmation box. */
    method CloseCurrentTab(reply: Reply) returns (error: Option<string>)
      requires Wellformed()
      modifies this
      ensures Wellformed()
      ensures (State(), error) == AfterClose(old(State()), reply)
    {
      ghost var s := State();
      CloseKeepsWellformed(s, reply);
      if reply == No {
        return None;
      }
      var lookup := State().WhatTab();
      if lookup.Err? {
        return Some(CloseError);
      }
      var curtab := lookup.value;
      var indextoclose := tabWidget.current;
      // the tab leaves the strip before the pops, and stays out if they raise
      var strip := tabWidget.RemoveTab(indextoclose);
      var popped := alltabdata.Pop(TabKey(curtab));
      var next: Tabs;
      if popped.Err? {
        next, error := State().(tabWidget := strip), Some(CloseError);
      } else {
        // cannot raise: the same index has just been read by whatTab
        var remaining := PyPop(tabnumbers, indextoclose).value;
        next, error := Tabs(totaltabs, remaining, popped.value, strip), None;
      }
      assert (next, error) == AfterClose(s, reply);
      tabWidget, alltabdata, tabnumbers := next.tabWidget, next.alltabdata, next.tabnumbers;
      assert State() == next;
    }

    /** closeEvent with the preferences window taken as closed: on Yes, the
        loop over `alltabdata` in insertion order, aborting the processor
        of each tab that is running one. */
    method CloseEvent(reply: Reply) returns (outcome: CloseOutcome)
      requires Wellformed()
      ensures outcome == CloseEventOutcome(reply, Some(false), alltabdata)
    {
      if reply == No {
        return Ignored;
      }
      var keys := alltabdata.order;
      var aborted: seq<string> := [];
      var i := 0;
      while i < |keys|
        invariant 0 <= i <= |keys|
        invariant Sweep(keys[..i], alltabdata.entries) == Swept(aborted)
      {
        var key := keys[i];
        var rec := alltabdata.entries[key];
        assert keys[..i + 1][..i] == keys[..i];
        if rec.tabtype == ProfileEditorType {
          // `plt.close(...)` is not modelled
        } else if rec.tabtype == SignalProcessorIncomplete || rec.tabtype == SignalProcessorCompleted {
          // `plt.close(...)` is not modelled
          match rec.isprocessing {
            case None =>
              SweepStopsAtRaise(keys, alltabdata.entries, i + 1);
              return Raised(KeyError("isprocessing"), aborted);
            case Some(running) =>
              if running {
                aborted := aborted + [key];
              }
          }
        }
        i := i + 1;
      }
      assert keys[..i] == keys;
      outcome := Accepted(aborted);
    }
  }
}
