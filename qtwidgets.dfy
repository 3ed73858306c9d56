/** The parts of PyQt5 the tab bookkeeping talks to, as values: the reply of
    a Yes/No question box, the button codes `QMessageBox.exec_()` returns,
    and the strip of a `QTabWidget` (its tab labels in visual order and its
    current index). Widgets, layouts and painting are not modelled. */
module QtWidgets {

  /** The button a user pressed in a Yes/No `QMessageBox.question`. */
  datatype Reply = Yes | No

  /** `QMessageBox.Ok`, the code `exec_()` returns for the Ok button. */
  const OkButton: int := 0x0000_0400
  /** `QMessageBox.Cancel`, the code `exec_()` returns for the Cancel button. */
  const CancelButton: int := 0x0040_0000

  function Min(a: int, b: int): int { if a <= b then a else b }

  /** The strip of a `QTabWidget`: one label per tab in visual order and
      the current index, which is -1 exactly when there is no tab. */
  datatype TabWidget = TabWidget(labels: seq<string>, current: int) {

    ghost predicate Valid() {
      -1 <= current < |labels| && (current == -1 <==> labels == [])
    }

    /** `count()` */
    function Count(): nat { |labels| }

    /** `addTab(widget, text)`: the tab goes to the end of the strip; a
        strip with no current tab makes it current. */
    function AddTab(text: string): (w: TabWidget)
      ensures w.labels == labels + [text]
      ensures Valid() ==> w.Valid() && w.current == (if labels == [] then 0 else current)
    {
      TabWidget(labels + [text], if current < 0 then |labels| else current)
    }

    /** `setCurrentIndex(i)`: an index outside the strip is ignored. */
    function SetCurrentIndex(i: int): (w: TabWidget)
      ensures w.labels == labels
      ensures 0 <= i < |labels| ==> w.current == i
      ensures !(0 <= i < |labels|) ==> w == this
      ensures Valid() ==> w.Valid()
    {
      if 0 <= i < |labels| then TabWidget(labels, i) else this
    }

    /** `setTabText(i, text)`: an index outside the strip is ignored. */
    function SetTabText(i: int, text: string): (w: TabWidget)
      ensures w.current == current && |w.labels| == |labels|
      ensures forall j :: 0 <= j < |labels| ==> w.labels[j] == (if j == i then text else labels[j])
      ensures Valid() ==> w.Valid()
    {
      if 0 <= i < |labels| then TabWidget(labels[i := text], current) else this
    }

    /** `removeTab(i)`: an index outside the strip is ignored. Removing the
        current tab selects the tab that slides into its place, or the new
        last tab when it was the last one (Qt's default `SelectRightTab`);
        removing a tab left of the current one keeps the same tab current. */
    function RemoveTab(i: int): (w: TabWidget)
      ensures 0 <= i < |labels| ==> w.labels == labels[..i] + labels[i + 1..]
      ensures !(0 <= i < |labels|) ==> w == this
      ensures Valid() ==> w.Valid()
      ensures Valid() && 0 <= i == current ==>
        w.current == (if |labels| == 1 then -1 else Min(i, |labels| - 2))
    {
      if 0 <= i < |labels| then
        var n := |labels| - 1;
        var c :=
          if i == current then (if n == 0 then -1 else Min(i, n - 1))
          else if i < current then current - 1
          else current;
        TabWidget(labels[..i] + labels[i + 1..], c)
      else this
    }
  }

  /** A `QTabWidget` with no tabs. */
  const EmptyTabWidget: TabWidget := TabWidget([], -1)
}
