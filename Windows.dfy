/**
 * The desktop's window manager: a fixed set of windows in document order, a
 * monotone z-index counter, a single focus highlight, and a taskbar tray with
 * one icon per open window.
 *
 * The pure part describes every operation as a function from one `Desk`
 * value to the next; the class `WindowManager` performs the same steps in
 * place and is proved to end in the state the function names.
 */
module Windows {
  import opened Text

  /** An inline style length: unset (`''`) or a pixel value. */
  datatype Length = Auto | Px(px: real)

  /** The inline `top`, `left`, `width`, `height` of a window. */
  datatype Geometry = Geometry(top: Length, left: Length, width: Length, height: Length)

  /** A rendered size, as `offsetWidth`/`offsetHeight` report it. */
  datatype Size = Size(width: real, height: real)

  /** A window's drag session: none, or one holding the pointer's offset inside the window. */
  datatype Drag = Idle | Dragging(grabX: real, grabY: real)

  datatype Win = Win(
    id: string,
    title: string,
    hasMaximizeButton: bool,  // whether the window has a maximize button
    visible: bool,            // inline `display` is `flex`
    focused: bool,            // carries the `focused` class
    z: int,                   // inline z-index; 0 stands for unset
    positioned: bool,         // `data-positioned` was written
    maximized: bool,          // carries the `maximized` class
    geometry: Geometry,
    saved: Geometry,          // `data-old-*`: the geometry before the last maximize
    drag: Drag)

  /** A taskbar tray icon: the window id it toggles, its label, its highlight. */
  datatype TrayIcon = TrayIcon(id: string, title: string, focused: bool)

  /** The whole window-manager state: windows in document order, tray icons in taskbar order, the z counter. */
  datatype Desk = Desk(wins: seq<Win>, tray: seq<TrayIcon>, highestZ: int)

  /** A window as the page declares it. */
  datatype WinDecl = WinDecl(id: string, title: string, hasMaximizeButton: bool)

  /** The z-index counter's starting value. */
  const BaseZ: int := 100
  /** How far each already-open window shifts a newly placed one. */
  const CascadeStep: real := 30.0
  /** The margin a newly placed window keeps when it would overflow. */
  const Inset: real := 10.0
  /** Viewports at most this wide do not drag windows. */
  const CompactViewport: real := 768.0

  const Unstyled: Geometry := Geometry(Auto, Auto, Auto, Auto)

  function Declared(decl: WinDecl): Win {
    Win(decl.id, decl.title, decl.hasMaximizeButton, false, false, 0, false, false, Unstyled, Unstyled, Idle)
  }

  function DeclIds(decls: seq<WinDecl>): seq<string> {
    seq(|decls|, i requires 0 <= i < |decls| => decls[i].id)
  }

  /** The page as loaded: every window hidden, unpositioned, unraised; an empty tray. */
  function InitialDesk(decls: seq<WinDecl>): Desk {
    Desk(seq(|decls|, i requires 0 <= i < |decls| => Declared(decls[i])), [], BaseZ)
  }

  function Ids(ws: seq<Win>): (ids: seq<string>)
    ensures |ids| == |ws| && forall i :: 0 <= i < |ws| ==> ids[i] == ws[i].id
  {
    seq(|ws|, i requires 0 <= i < |ws| => ws[i].id)
  }

  function TrayIds(tray: seq<TrayIcon>): (ids: seq<string>)
    ensures |ids| == |tray| && forall i :: 0 <= i < |tray| ==> ids[i] == tray[i].id
  {
    seq(|tray|, i requires 0 <= i < |tray| => tray[i].id)
  }

  /** The window looked up by its element id: the first with that id, or -1. */
  function IndexOfId(ws: seq<Win>, id: string): int {
    Position(Ids(ws), id)
  }

  /** The tray icon whose window-id attribute is `id`: the first one, or -1. */
  function TrayIndexOf(tray: seq<TrayIcon>, id: string): int {
    Position(TrayIds(tray), id)
  }

  /** The first window in document order carrying the focus highlight, or -1. */
  function FirstFocused(ws: seq<Win>): (k: int)
    ensures -1 <= k < |ws|
    ensures k == -1 <==> forall j :: 0 <= j < |ws| ==> !ws[j].focused
    ensures k >= 0 ==> ws[k].focused && forall j :: 0 <= j < k ==> !ws[j].focused
  {
    if |ws| == 0 then -1
    else if ws[0].focused then 0
    else
      var k := FirstFocused(ws[1..]);
      assert forall j :: 0 < j < |ws| ==> ws[j] == ws[1..][j - 1];
      if k == -1 then -1 else k + 1
  }

  /**
   * The last window in document order shown with `display: flex` (the last of
   * the filtered window list), or -1 when none is shown.
   */
  function LastVisible(ws: seq<Win>): (k: int)
    ensures -1 <= k < |ws|
    ensures k == -1 <==> forall j :: 0 <= j < |ws| ==> !ws[j].visible
    ensures k >= 0 ==> ws[k].visible && forall j :: k < j < |ws| ==> !ws[j].visible
  {
    if |ws| == 0 then -1
    else if ws[|ws| - 1].visible then |ws| - 1
    else LastVisible(ws[..|ws| - 1])
  }

  /** Tray icon `t` toggles an existing window, and is highlighted only while that window is. */
  ghost predicate TrayBacked(d: Desk, t: int)
    requires 0 <= t < |d.tray|
  {
    var k := IndexOfId(d.wins, d.tray[t].id);
    0 <= k && (d.tray[t].focused ==> d.wins[k].focused)
  }

  /**
   * What every operation keeps: window ids and tray ids are unique, no z-index
   * exceeds the counter, a focused window holds the counter's value, raised
   * windows have pairwise different z-indices, and every tray icon belongs to a
   * window.
   */
  ghost predicate Inv(d: Desk) {
    && d.highestZ >= BaseZ
    && Distinct(Ids(d.wins))
    && Distinct(TrayIds(d.tray))
    && (forall j :: 0 <= j < |d.wins| ==> d.wins[j].z <= d.highestZ)
    && (forall j :: 0 <= j < |d.wins| && d.wins[j].focused ==> BaseZ < d.wins[j].z == d.highestZ)
    && (forall i, j :: 0 <= i < |d.wins| && 0 <= j < |d.wins| && i != j && BaseZ < d.wins[i].z ==>
          d.wins[i].z != d.wins[j].z)
    && (forall t :: 0 <= t < |d.tray| ==> TrayBacked(d, t))
  }

  lemma InitialDeskInv(decls: seq<WinDecl>)
    requires Distinct(DeclIds(decls))
    ensures Inv(InitialDesk(decls))
  {
    var d := InitialDesk(decls);
    assert Ids(d.wins) == DeclIds(decls);
  }

  /** Changes that leave ids, z-indices, focus flags, the tray and the counter alone keep the invariant. */
  lemma InvFrame(d: Desk, e: Desk)
    requires Inv(d)
    requires |e.wins| == |d.wins| && e.tray == d.tray && e.highestZ == d.highestZ
    requires forall j :: 0 <= j < |d.wins| ==>
      e.wins[j].id == d.wins[j].id && e.wins[j].z == d.wins[j].z && e.wins[j].focused == d.wins[j].focused
    ensures Inv(e)
  {
    assert Ids(e.wins) == Ids(d.wins);
    forall t | 0 <= t < |e.tray| ensures TrayBacked(e, t) {
      assert TrayBacked(d, t);
    }
  }

  // ---------------------------------------------------------------- focus

  /** Only the first tray icon for `id` highlighted. */
  function RefocusTray(tray: seq<TrayIcon>, id: string): (r: seq<TrayIcon>)
    ensures |r| == |tray| && TrayIds(r) == TrayIds(tray)
  {
    var t := TrayIndexOf(tray, id);
    var r := seq(|tray|, i requires 0 <= i < |tray| => tray[i].(focused := i == t));
    assert TrayIds(r) == TrayIds(tray);
    r
  }

  /**
   * `focusWindow(win)`: every window and tray icon loses its highlight, the
   * window at `k` gains it together with the next z-index, and so does its tray
   * icon. No window at `k` (a null element) changes nothing.
   */
  function Focus(d: Desk, k: int): Desk {
    if 0 <= k < |d.wins| then
      var z := d.highestZ + 1;
      Desk(
        seq(|d.wins|, j requires 0 <= j < |d.wins| =>
          if j == k then d.wins[j].(focused := true, z := z) else d.wins[j].(focused := false)),
        RefocusTray(d.tray, d.wins[k].id),
        z)
    else d
  }

  lemma FocusPreservesInv(d: Desk, k: int)
    requires Inv(d)
    ensures Inv(Focus(d, k))
  {
    if 0 <= k < |d.wins| {
      var r := Focus(d, k);
      assert Ids(r.wins) == Ids(d.wins);
      PositionOfDistinct(Ids(d.wins), k);
      forall t | 0 <= t < |r.tray| ensures TrayBacked(r, t) {
        assert TrayBacked(d, t);
      }
    }
  }

  /**
   * Focusing raises the window above every z-index seen so far, makes it the
   * only focused window, and highlights exactly the tray icons that toggle it.
   */
  lemma FocusRaises(d: Desk, k: int)
    requires Inv(d) && 0 <= k < |d.wins|
    ensures var r := Focus(d, k);
      && r.highestZ == d.highestZ + 1
      && (forall j :: 0 <= j < |d.wins| ==> d.wins[j].z < r.wins[k].z)
      && r.wins[k].focused
      && (forall j :: 0 <= j < |r.wins| && j != k ==> !r.wins[j].focused)
      && (forall t :: 0 <= t < |r.tray| ==> (r.tray[t].focused <==> r.tray[t].id == d.wins[k].id))
  {
    var r := Focus(d, k);
    forall t | 0 <= t < |r.tray|
      ensures r.tray[t].focused <==> r.tray[t].id == d.wins[k].id
    {
      if r.tray[t].id == d.wins[k].id {
        assert TrayIds(d.tray)[t] == d.wins[k].id;
        PositionOfDistinct(TrayIds(d.tray), t);
      }
    }
  }

  /** The focused window, if any, is strictly above every other window. */
  lemma FocusedIsTopmost(d: Desk, i: nat)
    requires Inv(d) && i < |d.wins| && d.wins[i].focused
    ensures forall j :: 0 <= j < |d.wins| && j != i ==> d.wins[j].z < d.wins[i].z && !d.wins[j].focused
  {
    forall j | 0 <= j < |d.wins| && j != i
      ensures d.wins[j].z < d.wins[i].z && !d.wins[j].focused
    {
      assert d.wins[j].z <= d.highestZ;
      assert d.wins[j].z != d.wins[i].z;
    }
  }

  // ---------------------------------------------------------------- open

  /**
   * One axis of a first placement: centred, shifted by `offset`, pulled back
   * `Inset` from the far edge on overflow, and moved to `Inset` when negative.
   */
  function Place(extent: real, size: real, offset: real): (p: real)
    ensures p >= 0.0
    ensures size + Inset <= extent ==> p + size <= extent
    ensures 0.0 <= (extent - size) / 2.0 + offset && (extent - size) / 2.0 + offset + size <= extent ==>
      p == (extent - size) / 2.0 + offset
  {
    var p0 := (extent - size) / 2.0 + offset;
    var p1 := if p0 + size > extent then extent - size - Inset else p0;
    if p1 < 0.0 then Inset else p1
  }

  /** The window at `k`, placed from its measured size if it never was. */
  function Positioned(d: Desk, k: nat, measured: Size, desktop: Size): Win
    requires k < |d.wins|
  {
    var w := d.wins[k];
    if w.positioned then w
    else
      var offset := (|d.tray| as real) * CascadeStep;
      w.(positioned := true,
         geometry := w.geometry.(top := Px(Place(desktop.height, measured.height, offset)),
                                 left := Px(Place(desktop.width, measured.width, offset))))
  }

  /** The first step of `openWindow`: place the window at `k` if it never was, and show it. */
  function Show(d: Desk, k: nat, measured: Size, desktop: Size): Desk
    requires k < |d.wins|
  {
    d.(wins := d.wins[k := Positioned(d, k, measured, desktop).(visible := true)])
  }

  /** The last step of `openWindow`: a new, unhighlighted tray icon for window `k` unless it has one. */
  function AddTrayIcon(d: Desk, k: nat): Desk
    requires k < |d.wins|
  {
    var id := d.wins[k].id;
    if TrayIndexOf(d.tray, id) >= 0 then d
    else d.(tray := d.tray + [TrayIcon(id, d.wins[k].title, false)])
  }

  /**
   * `openWindow(id)`: place the window on its first opening, show it, focus
   * it, and add a tray icon if it has none. An id no window has changes nothing.
   * The icon is added after focusing, so a newly added icon starts unhighlighted.
   */
  function Open(d: Desk, id: string, measured: Size, desktop: Size): Desk {
    var k := IndexOfId(d.wins, id);
    if k < 0 then d else AddTrayIcon(Focus(Show(d, k, measured, desktop), k), k)
  }

  lemma ShowInv(d: Desk, k: nat, measured: Size, desktop: Size)
    requires Inv(d) && k < |d.wins|
    ensures Inv(Show(d, k, measured, desktop))
  {
    InvFrame(d, Show(d, k, measured, desktop));
  }

  lemma AddTrayIconInv(d: Desk, k: nat)
    requires Inv(d) && k < |d.wins|
    ensures Inv(AddTrayIcon(d, k))
  {
    var id := d.wins[k].id;
    if TrayIndexOf(d.tray, id) < 0 {
      var r := AddTrayIcon(d, k);
      assert TrayIds(r.tray) == TrayIds(d.tray) + [id];
      forall t | 0 <= t < |r.tray| ensures TrayBacked(r, t) {
        if t < |d.tray| {
          assert TrayBacked(d, t);
        } else {
          assert Ids(d.wins)[k] == id;
        }
      }
    }
  }

  lemma OpenPreservesInv(d: Desk, id: string, measured: Size, desktop: Size)
    requires Inv(d)
    ensures Inv(Open(d, id, measured, desktop))
  {
    var k := IndexOfId(d.wins, id);
    if k >= 0 {
      ShowInv(d, k, measured, desktop);
      FocusPreservesInv(Show(d, k, measured, desktop), k);
      AddTrayIconInv(Focus(Show(d, k, measured, desktop), k), k);
    }
  }

  /**
   * Opening a window shows and focuses it and keeps every tray icon, adding
   * one for its id exactly when there was none. A window opened before keeps
   * its geometry; one never placed is centred on the desktop, shifted by
   * `CascadeStep` for each tray icon, and so stays inside the desktop when it
   * fits. No other window moves.
   */
  lemma OpenFacts(d: Desk, id: string, measured: Size, desktop: Size)
    requires Inv(d) && id in Ids(d.wins)
    ensures var k := IndexOfId(d.wins, id); var r := Open(d, id, measured, desktop);
      && r.wins[k].visible && r.wins[k].focused && r.wins[k].positioned
      && (forall j :: 0 <= j < |r.wins| && j != k ==> !r.wins[j].focused && r.wins[j].visible == d.wins[j].visible)
      && TrayIds(r.tray) == (if id in TrayIds(d.tray) then TrayIds(d.tray) else TrayIds(d.tray) + [id])
      && (!d.wins[k].positioned ==>
            r.wins[k].geometry.top.Px? && r.wins[k].geometry.top.px >= 0.0
            && r.wins[k].geometry.left.Px? && r.wins[k].geometry.left.px >= 0.0
            && (measured.height + Inset <= desktop.height ==> r.wins[k].geometry.top.px + measured.height <= desktop.height)
            && (measured.width + Inset <= desktop.width ==> r.wins[k].geometry.left.px + measured.width <= desktop.width))
      && (d.wins[k].positioned ==> r.wins[k].geometry == d.wins[k].geometry)
      && (!d.wins[k].positioned ==>
            var offset := (|d.tray| as real) * CascadeStep;
            r.wins[k].geometry == d.wins[k].geometry.(top := Px(Place(desktop.height, measured.height, offset)),
                                                      left := Px(Place(desktop.width, measured.width, offset))))
      && (forall j :: 0 <= j < |r.wins| && j != k ==> r.wins[j].geometry == d.wins[j].geometry)
  {
    var k := IndexOfId(d.wins, id);
    var e := Show(d, k, measured, desktop);
    InvFrame(d, e);
    FocusRaises(e, k);
    var shown := Focus(e, k);
    assert TrayIds(shown.tray) == TrayIds(d.tray);
  }

  /** Opening an open window again adds no second tray icon. */
  lemma OpenTwiceOneTrayIcon(d: Desk, id: string, m1: Size, d1: Size, m2: Size, d2: Size)
    requires Inv(d) && id in Ids(d.wins)
    ensures TrayIds(Open(Open(d, id, m1, d1), id, m2, d2).tray) == TrayIds(Open(d, id, m1, d1).tray)
  {
    var once := Open(d, id, m1, d1);
    OpenFacts(d, id, m1, d1);
    OpenPreservesInv(d, id, m1, d1);
    assert Ids(once.wins) == Ids(d.wins) by {
      var k := IndexOfId(d.wins, id);
      var e := Show(d, k, m1, d1);
      assert Ids(e.wins) == Ids(d.wins);
      assert Ids(Focus(e, k).wins) == Ids(e.wins);
    }
    OpenFacts(once, id, m2, d2);
  }

  /** Opening, closing or maximizing an id that no window has changes nothing. */
  lemma UnknownIdChangesNothing(d: Desk, id: string, measured: Size, desktop: Size)
    requires id !in Ids(d.wins)
    ensures Open(d, id, measured, desktop) == d && Close(d, id) == d && Maximize(d, id, desktop) == d
  { }

  // ---------------------------------------------------------------- close, minimize, Escape

  /** The tray without its icon at `t`, or unchanged when `t` is -1. */
  function WithoutIcon(tray: seq<TrayIcon>, t: int): (r: seq<TrayIcon>)
    requires -1 <= t < |tray|
    ensures t < 0 ==> r == tray
    ensures t >= 0 ==> |r| == |tray| - 1 && forall i :: 0 <= i < |r| ==> r[i] == tray[if i < t then i else i + 1]
  {
    if t < 0 then tray else tray[..t] + tray[t + 1..]
  }

  /** The first half of `closeWindow(id)`: hide the window and drop its tray icon. */
  function HideAndDropIcon(d: Desk, k: nat): Desk
    requires k < |d.wins|
  {
    Desk(d.wins[k := d.wins[k].(visible := false)], WithoutIcon(d.tray, TrayIndexOf(d.tray, d.wins[k].id)), d.highestZ)
  }

  /** The second half: focus the last window in document order that is still shown, if any. */
  function FocusLastShown(d: Desk): Desk {
    var m := LastVisible(d.wins);
    if m >= 0 then Focus(d, m) else d
  }

  /**
   * `closeWindow(id)`: hide the window, drop its tray icon, then focus the last
   * window in document order that is still shown. When none is shown, no
   * highlight changes, so the closed window may keep its own.
   */
  function Close(d: Desk, id: string): Desk {
    var k := IndexOfId(d.wins, id);
    if k < 0 then d else FocusLastShown(HideAndDropIcon(d, k))
  }

  lemma WithoutIconInv(d: Desk, e: Desk, t: int)
    requires Inv(d) && 0 <= t < |d.tray|
    requires e.wins == d.wins && e.highestZ == d.highestZ && e.tray == WithoutIcon(d.tray, t)
    ensures Inv(e)
  {
    var a, b := TrayIds(d.tray), TrayIds(e.tray);
    forall i, j | 0 <= i < j < |b| ensures b[i] != b[j] {
      var i', j' := if i < t then i else i + 1, if j < t then j else j + 1;
      assert b[i] == a[i'] && b[j] == a[j'];
    }
    forall s | 0 <= s < |e.tray| ensures TrayBacked(e, s) {
      assert TrayBacked(d, if s < t then s else s + 1);
    }
  }

  lemma HideAndDropIconInv(d: Desk, k: nat)
    requires Inv(d) && k < |d.wins|
    ensures Inv(HideAndDropIcon(d, k))
  {
    var h := d.(wins := d.wins[k := d.wins[k].(visible := false)]);
    InvFrame(d, h);
    var t := TrayIndexOf(d.tray, d.wins[k].id);
    if t >= 0 { WithoutIconInv(h, HideAndDropIcon(d, k), t); }
  }

  lemma FocusLastShownInv(d: Desk)
    requires Inv(d)
    ensures Inv(FocusLastShown(d))
  {
    var m := LastVisible(d.wins);
    if m >= 0 { FocusPreservesInv(d, m); }
  }

  lemma ClosePreservesInv(d: Desk, id: string)
    requires Inv(d)
    ensures Inv(Close(d, id))
  {
    var k := IndexOfId(d.wins, id);
    if k >= 0 {
      HideAndDropIconInv(d, k);
      FocusLastShownInv(HideAndDropIcon(d, k));
    }
  }

  /** Dropping the icon for `id` from a tray of unique ids leaves no icon for `id`. */
  lemma DropIconRemoves(tray: seq<TrayIcon>, id: string)
    requires Distinct(TrayIds(tray))
    ensures id !in TrayIds(WithoutIcon(tray, TrayIndexOf(tray, id)))
  {
    var t := TrayIndexOf(tray, id);
    var r := WithoutIcon(tray, t);
    if t >= 0 {
      PositionOfDistinct(TrayIds(tray), t);
      forall i | 0 <= i < |r| ensures r[i].id != id {
        var i' := if i < t then i else i + 1;
        assert TrayIds(tray)[i'] != TrayIds(tray)[t];
      }
    }
  }

  /** Dropping the icon for `id` keeps the icon of every other id. */
  lemma DropIconKeeps(tray: seq<TrayIcon>, id: string, i: nat)
    requires i < |tray| && tray[i].id != id
    ensures tray[i].id in TrayIds(WithoutIcon(tray, TrayIndexOf(tray, id)))
  {
    var t := TrayIndexOf(tray, id);
    var r := WithoutIcon(tray, t);
    if t < 0 {
      assert TrayIds(r)[i] == tray[i].id;
    } else {
      assert TrayIds(tray)[t] == id;
      var i' := if i < t then i else i - 1;
      assert 0 <= i' < |r| && r[i'] == tray[i];
      assert TrayIds(r)[i'] == tray[i].id;
    }
  }

  /** Focusing the last shown window changes no window's display and no tray icon's id. */
  lemma FocusLastShownFrame(d: Desk)
    ensures var r := FocusLastShown(d);
      && |r.wins| == |d.wins| && TrayIds(r.tray) == TrayIds(d.tray)
      && forall j :: 0 <= j < |d.wins| ==> r.wins[j].visible == d.wins[j].visible
  {
  }

  /**
   * After closing, the window is hidden and has no tray icon, every other
   * window keeps its display, and every other window's icon stays.
   */
  lemma CloseHides(d: Desk, id: string)
    requires Inv(d) && id in Ids(d.wins)
    ensures var k := IndexOfId(d.wins, id); var r := Close(d, id);
      && |r.wins| == |d.wins| && k < |d.wins|
      && (forall j :: 0 <= j < |r.wins| ==> r.wins[j].visible == (j != k && d.wins[j].visible))
      && id !in TrayIds(r.tray)
      && (forall i :: 0 <= i < |d.tray| && d.tray[i].id != id ==> d.tray[i].id in TrayIds(r.tray))
  {
    var k := IndexOfId(d.wins, id);
    var e := HideAndDropIcon(d, k);
    FocusLastShownFrame(e);
    DropIconRemoves(d.tray, id);
    forall i | 0 <= i < |d.tray| && d.tray[i].id != id
      ensures d.tray[i].id in TrayIds(e.tray)
    {
      DropIconKeeps(d.tray, id, i);
    }
  }

  /** Focusing the last shown window makes it the one focused window. */
  lemma FocusLastShownFacts(d: Desk, m: nat)
    requires Inv(d) && m < |d.wins| && d.wins[m].visible
    requires forall j :: m < j < |d.wins| ==> !d.wins[j].visible
    ensures var r := FocusLastShown(d); r.wins[m].focused && forall j :: 0 <= j < |r.wins| && j != m ==> !r.wins[j].focused
  {
    assert LastVisible(d.wins) == m;
    FocusRaises(d, m);
  }

  /** When some window is still shown, the last shown one in document order becomes the one focused window. */
  lemma CloseFocusesLastShown(d: Desk, id: string, m: nat)
    requires Inv(d) && id in Ids(d.wins)
    requires var r := Close(d, id); m < |r.wins| && r.wins[m].visible && forall j :: m < j < |r.wins| ==> !r.wins[j].visible
    ensures var r := Close(d, id); r.wins[m].focused && forall j :: 0 <= j < |r.wins| && j != m ==> !r.wins[j].focused
  {
    var k := IndexOfId(d.wins, id);
    var e := HideAndDropIcon(d, k);
    HideAndDropIconInv(d, k);
    FocusLastShownFrame(e);
    FocusLastShownFacts(e, m);
  }

  /** When no window stays shown, closing changes no window's highlight, not even the closed one's. */
  lemma CloseWithNoneShown(d: Desk, id: string)
    requires Inv(d) && id in Ids(d.wins)
    requires var r := Close(d, id); forall j :: 0 <= j < |r.wins| ==> !r.wins[j].visible
    ensures var r := Close(d, id); forall j :: 0 <= j < |r.wins| ==> r.wins[j].focused == d.wins[j].focused
  {
    var k := IndexOfId(d.wins, id);
    var e := HideAndDropIcon(d, k);
    FocusLastShownFrame(e);
  }

  /** The minimize button: hide the window at `k`; the highlight stays. */
  function Minimize(d: Desk, k: int): Desk {
    if 0 <= k < |d.wins| then d.(wins := d.wins[k := d.wins[k].(visible := false)]) else d
  }

  /** Escape on the page: hide the first focused window, if there is one. */
  function Escape(d: Desk): Desk {
    Minimize(d, FirstFocused(d.wins))
  }

  /**
   * Minimize hides the window at `k` and changes nothing else: it keeps its
   * highlight, z-index and tray icon, and every other window stays as it was.
   * Without a window at `k` nothing changes.
   */
  lemma MinimizeHides(d: Desk, k: int)
    ensures var r := Minimize(d, k);
      && r.tray == d.tray && r.highestZ == d.highestZ && |r.wins| == |d.wins|
      && (0 <= k < |d.wins| ==> r.wins[k] == d.wins[k].(visible := false) && !r.wins[k].visible)
      && (forall j :: 0 <= j < |d.wins| && j != k ==> r.wins[j] == d.wins[j])
  { }

  lemma MinimizePreservesInv(d: Desk, k: int)
    requires Inv(d)
    ensures Inv(Minimize(d, k)) && Inv(Escape(d))
  {
    if 0 <= k < |d.wins| { InvFrame(d, Minimize(d, k)); }
    var f := FirstFocused(d.wins);
    if f >= 0 { InvFrame(d, Escape(d)); }
  }

  /**
   * Escape hides the focused window and nothing else; with no focused window
   * it changes nothing. Neither it nor minimize touches focus, z-indices or the tray.
   */
  lemma EscapeHidesFocused(d: Desk)
    requires Inv(d)
    ensures var r := Escape(d);
      && r.tray == d.tray && r.highestZ == d.highestZ && |r.wins| == |d.wins|
      && (forall j :: 0 <= j < |d.wins| ==>
            r.wins[j] == (if d.wins[j].focused then d.wins[j].(visible := false) else d.wins[j]))
  {
    var f := FirstFocused(d.wins);
    if f >= 0 { FocusedIsTopmost(d, f); }
  }

  // ---------------------------------------------------------------- tray icons

  /**
   * A click on tray icon `t`: when its window is hidden or unfocused, show and
   * focus it; otherwise hide it.
   */
  function ClickTray(d: Desk, t: int): Desk {
    if 0 <= t < |d.tray| then
      var k := IndexOfId(d.wins, d.tray[t].id);
      if k < 0 then d
      else if !d.wins[k].visible || !d.wins[k].focused then
        Focus(d.(wins := d.wins[k := d.wins[k].(visible := true)]), k)
      else Minimize(d, k)
    else d
  }

  lemma ClickTrayPreservesInv(d: Desk, t: int)
    requires Inv(d)
    ensures Inv(ClickTray(d, t))
  {
    if 0 <= t < |d.tray| {
      var k := IndexOfId(d.wins, d.tray[t].id);
      if k >= 0 {
        var e := d.(wins := d.wins[k := d.wins[k].(visible := true)]);
        InvFrame(d, e);
        FocusPreservesInv(e, k);
        MinimizePreservesInv(d, k);
      }
    }
  }

  /**
   * A tray icon toggles its window: a shown, focused window is hidden; any
   * other is shown and becomes the focused one. So a second click undoes a
   * first one that hid the window's display.
   */
  lemma ClickTrayToggles(d: Desk, t: nat)
    requires Inv(d) && t < |d.tray|
    ensures var k := IndexOfId(d.wins, d.tray[t].id); var r := ClickTray(d, t);
      && 0 <= k < |d.wins| && |r.wins| == |d.wins| && TrayIds(r.tray) == TrayIds(d.tray)
      && (d.wins[k].visible && d.wins[k].focused ==> !r.wins[k].visible && r.wins[k].focused)
      && (!(d.wins[k].visible && d.wins[k].focused) ==>
            r.wins[k].visible && r.wins[k].focused && forall j :: 0 <= j < |r.wins| && j != k ==> !r.wins[j].focused)
  {
    assert TrayBacked(d, t);
    var k := IndexOfId(d.wins, d.tray[t].id);
    var e := d.(wins := d.wins[k := d.wins[k].(visible := true)]);
    InvFrame(d, e);
    FocusRaises(e, k);
  }

  lemma ClickTrayTwice(d: Desk, t: nat)
    requires Inv(d) && t < |d.tray|
    ensures var k := IndexOfId(d.wins, d.tray[t].id); var r := ClickTray(ClickTray(d, t), t);
      && |r.wins| == |d.wins| && 0 <= k < |d.wins|
      && r.wins[k].visible == (d.wins[k].visible && d.wins[k].focused) && r.wins[k].focused
  {
    var k := IndexOfId(d.wins, d.tray[t].id);
    ClickTrayToggles(d, t);
    ClickTrayPreservesInv(d, t);
    var once := ClickTray(d, t);
    assert TrayIds(once.tray)[t] == TrayIds(d.tray)[t];
    assert Ids(once.wins) == Ids(d.wins) by {
      forall j | 0 <= j < |d.wins| ensures once.wins[j].id == d.wins[j].id { }
    }
    assert IndexOfId(once.wins, once.tray[t].id) == k;
    ClickTrayToggles(once, t);
  }

  // ---------------------------------------------------------------- maximize

  /**
   * `maximizeWindow` on one window. With a maximize button: maximizing saves the
   * inline geometry and fills the desktop from its top left corner; restoring
   * writes the saved geometry back. Without one, the `maximized` class is
   * toggled and the next statement fails on the missing button, so the
   * geometry stays as it was.
   */
  function ToggleMaximize(w: Win, desktop: Size): Win {
    if !w.hasMaximizeButton then w.(maximized := !w.maximized)
    else if w.maximized then w.(maximized := false, geometry := w.saved)
    else w.(maximized := true, saved := w.geometry,
            geometry := Geometry(Px(0.0), Px(0.0), Px(desktop.width), Px(desktop.height)))
  }

  function Maximize(d: Desk, id: string, desktop: Size): Desk {
    var k := IndexOfId(d.wins, id);
    if k < 0 then d else d.(wins := d.wins[k := ToggleMaximize(d.wins[k], desktop)])
  }

  lemma MaximizePreservesInv(d: Desk, id: string, desktop: Size)
    requires Inv(d)
    ensures Inv(Maximize(d, id, desktop))
  {
    var k := IndexOfId(d.wins, id);
    if k >= 0 { InvFrame(d, Maximize(d, id, desktop)); }
  }

  /** Maximizing fills the desktop exactly, when the window has the button. */
  lemma MaximizeFillsDesktop(w: Win, desktop: Size)
    requires w.hasMaximizeButton && !w.maximized
    ensures var r := ToggleMaximize(w, desktop);
      r.maximized && r.geometry == Geometry(Px(0.0), Px(0.0), Px(desktop.width), Px(desktop.height))
      && r.visible == w.visible && r.focused == w.focused && r.z == w.z
  { }

  /**
   * Maximize then restore gives back the window's geometry and unmaximized state,
   * whatever the desktop's size was at either step; only the saved copy changes.
   */
  lemma {:induction false} MaximizeTwiceRestores(w: Win, d1: Size, d2: Size)
    requires !w.maximized
    ensures ToggleMaximize(ToggleMaximize(w, d1), d2) == w.(saved := if w.hasMaximizeButton then w.geometry else w.saved)
  { }

  // ---------------------------------------------------------------- dragging

  /**
   * A mouse-down on the title bar of window `k` starts a drag unless the
   * viewport is compact, the window is maximized, or the press was on a button;
   * the drag remembers where in the window the pointer grabbed it.
   */
  function BeginDrag(d: Desk, k: int, clientX: real, clientY: real, offsetLeft: real, offsetTop: real,
                     viewportWidth: real, onButton: bool): Desk {
    if 0 <= k < |d.wins| && CompactViewport < viewportWidth && !d.wins[k].maximized && !onButton then
      d.(wins := d.wins[k := d.wins[k].(drag := Dragging(clientX - offsetLeft, clientY - offsetTop))])
    else d
  }

  /** One axis of a drag move: no further left/up than 0, then no further right/down than `extent - size`. */
  function Clamp(p: real, size: real, extent: real): (q: real)
    ensures q + size <= extent
    ensures size <= extent ==> 0.0 <= q
    ensures 0.0 <= p && p + size <= extent ==> q == p
    ensures extent < size ==> q == extent - size
  {
    var q := if p < 0.0 then 0.0 else p;
    if q + size > extent then extent - size else q
  }

  /** A pointer move while window `k` is being dragged: follow the pointer, clamped to the desktop. */
  function MoveDrag(d: Desk, k: int, clientX: real, clientY: real, size: Size, desktop: Size): Desk {
    if 0 <= k < |d.wins| && d.wins[k].drag.Dragging? then
      var w := d.wins[k];
      d.(wins := d.wins[k := w.(geometry := w.geometry.(
        left := Px(Clamp(clientX - w.drag.grabX, size.width, desktop.width)),
        top := Px(Clamp(clientY - w.drag.grabY, size.height, desktop.height))))])
    else d
  }

  /** Mouse-up ends the drag of window `k`. */
  function EndDrag(d: Desk, k: int): Desk {
    if 0 <= k < |d.wins| then d.(wins := d.wins[k := d.wins[k].(drag := Idle)]) else d
  }

  lemma DragPreservesInv(d: Desk, k: int, x: real, y: real, ox: real, oy: real, vw: real, b: bool, size: Size, desktop: Size)
    requires Inv(d)
    ensures Inv(BeginDrag(d, k, x, y, ox, oy, vw, b)) && Inv(MoveDrag(d, k, x, y, size, desktop)) && Inv(EndDrag(d, k))
  {
    if 0 <= k < |d.wins| {
      InvFrame(d, BeginDrag(d, k, x, y, ox, oy, vw, b));
      InvFrame(d, MoveDrag(d, k, x, y, size, desktop));
      InvFrame(d, EndDrag(d, k));
    }
  }

  /** A drag never starts on a maximized window, on a compact viewport, or from a button. */
  lemma DragNeverStartsMaximized(d: Desk, k: nat, x: real, y: real, ox: real, oy: real, vw: real, b: bool)
    requires k < |d.wins| && d.wins[k].drag.Idle?
    ensures BeginDrag(d, k, x, y, ox, oy, vw, b).wins[k].drag.Dragging? <==>
      (!d.wins[k].maximized && CompactViewport < vw && !b)
  { }

  /**
   * A drag move keeps the window's far edges on the desktop, keeps its near edges
   * on the desktop when it fits, and puts the grabbed point under the pointer
   * whenever that position already fits.
   */
  lemma MoveDragStaysOnDesktop(d: Desk, k: nat, x: real, y: real, size: Size, desktop: Size)
    requires k < |d.wins| && d.wins[k].drag.Dragging?
    ensures var g := MoveDrag(d, k, x, y, size, desktop).wins[k].geometry; var w := d.wins[k];
      && g.left.Px? && g.top.Px?
      && g.left.px + size.width <= desktop.width && g.top.px + size.height <= desktop.height
      && (size.width <= desktop.width ==> 0.0 <= g.left.px)
      && (size.height <= desktop.height ==> 0.0 <= g.top.px)
      && (0.0 <= x - w.drag.grabX && x - w.drag.grabX + size.width <= desktop.width ==> g.left.px == x - w.drag.grabX)
      && (0.0 <= y - w.drag.grabY && y - w.drag.grabY + size.height <= desktop.height ==> g.top.px == y - w.drag.grabY)
      && g.width == w.geometry.width && g.height == w.geometry.height
  { }

  /** After mouse-up, pointer moves leave the window where it is. */
  lemma MoveAfterEndDrag(d: Desk, k: nat, x: real, y: real, size: Size, desktop: Size)
    requires k < |d.wins|
    ensures MoveDrag(EndDrag(d, k), k, x, y, size, desktop) == EndDrag(d, k)
  { }
}
