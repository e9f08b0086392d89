/**
 * The window manager as the page runs it: the windows are a fixed array
 * updated in place, the tray and the z-index counter are fields. Each event
 * handler is proved to leave the state its `Windows` function describes, and
 * to keep `Windows.Inv`.
 */
module WindowManager {
  import opened Text
  import opened Windows

  class WindowManager {
    const wins: array<Win>
    var tray: seq<TrayIcon>
    var highestZ: int

    ghost function State(): Desk
      reads this, wins
    {
      Desk(wins[..], tray, highestZ)
    }

    ghost predicate Valid()
      reads this, wins
    {
      Inv(State())
    }

    constructor (decls: seq<WinDecl>)
      requires Distinct(DeclIds(decls))
      ensures State() == InitialDesk(decls) && Valid()
    {
      wins := new Win[|decls|](i requires 0 <= i < |decls| => Declared(decls[i]));
      tray := [];
      highestZ := BaseZ;
      new;
      assert wins[..] == InitialDesk(decls).wins;
      InitialDeskInv(decls);
    }

    /** `focusWindow`: clear every highlight, raise and highlight window `k` and its tray icon. */
    method FocusWindow(k: int)
      requires Valid()
      modifies this, wins
      ensures State() == Focus(old(State()), k) && Valid()
    {
      ghost var d := State();
      FocusPreservesInv(d, k);
      if !(0 <= k < wins.Length) {
        return;
      }
      UnfocusWindows();
      UnfocusTray();
      highestZ := highestZ + 1;
      wins[k] := wins[k].(focused := true, z := highestZ);
      assert TrayIds(tray) == TrayIds(d.tray);
      var t := TrayIndexOf(tray, wins[k].id);
      if t >= 0 {
        tray := tray[t := tray[t].(focused := true)];
      }
      assert wins[..] == Focus(d, k).wins;
      assert tray == Focus(d, k).tray;
    }

    /** Every window loses its highlight. */
    method UnfocusWindows()
      modifies wins
      ensures forall i :: 0 <= i < wins.Length ==> wins[i] == old(wins[i]).(focused := false)
    {
      for j := 0 to wins.Length
        invariant forall i :: 0 <= i < j ==> wins[i] == old(wins[i]).(focused := false)
        invariant forall i :: j <= i < wins.Length ==> wins[i] == old(wins[i])
      {
        wins[j] := wins[j].(focused := false);
      }
    }

    /** The same for every tray icon. */
    method UnfocusTray()
      modifies this
      ensures highestZ == old(highestZ)
      ensures |tray| == |old(tray)| && forall i :: 0 <= i < |tray| ==> tray[i] == old(tray[i]).(focused := false)
    {
      for j := 0 to |tray|
        invariant |tray| == |old(tray)| && highestZ == old(highestZ)
        invariant forall i :: 0 <= i < j ==> tray[i] == old(tray[i]).(focused := false)
        invariant forall i :: j <= i < |tray| ==> tray[i] == old(tray[i])
      {
        tray := tray[j := tray[j].(focused := false)];
      }
    }

    /** The last window shown with `display: flex`, scanning in document order, or -1. */
    method LastVisibleWindow() returns (m: int)
      ensures m == LastVisible(wins[..])
    {
      m := -1;
      for i := 0 to wins.Length
        invariant m == LastVisible(wins[..i])
      {
        assert wins[..i + 1][..i] == wins[..i];
        if wins[i].visible {
          m := i;
        }
      }
      assert wins[..wins.Length] == wins[..];
    }

    /** The first focused window in document order, or -1. */
    method FocusedWindow() returns (k: int)
      ensures k == FirstFocused(wins[..])
    {
      k := 0;
      while k < wins.Length && !wins[k].focused
        invariant 0 <= k <= wins.Length
        invariant forall j :: 0 <= j < k ==> !wins[j].focused
      {
        k := k + 1;
      }
      if k == wins.Length {
        k := -1;
      }
    }

    /** `openWindow(id)`. */
    method OpenWindow(id: string, measured: Size, desktop: Size)
      requires Valid()
      modifies this, wins
      ensures State() == Open(old(State()), id, measured, desktop) && Valid()
    {
      var k := IndexOfId(wins[..], id);
      if k < 0 {
        return;
      }
      ShowWindow(k, measured, desktop);
      FocusWindow(k);
      AddTrayIconOf(k);
    }

    /** Place window `k` from its measured size if it never was placed, and show it. */
    method ShowWindow(k: nat, measured: Size, desktop: Size)
      requires Valid() && k < wins.Length
      modifies wins
      ensures State() == Show(old(State()), k, measured, desktop) && Valid()
    {
      ShowInv(State(), k, measured, desktop);
      if !wins[k].positioned {
        var offset := (|tray| as real) * CascadeStep;
        var top := Place(desktop.height, measured.height, offset);
        var left := Place(desktop.width, measured.width, offset);
        wins[k] := wins[k].(positioned := true, geometry := wins[k].geometry.(top := Px(top), left := Px(left)));
      }
      wins[k] := wins[k].(visible := true);
    }

    /** Give window `k` a tray icon unless it has one. */
    method AddTrayIconOf(k: nat)
      requires Valid() && k < wins.Length
      modifies this
      ensures State() == AddTrayIcon(old(State()), k) && Valid()
    {
      AddTrayIconInv(State(), k);
      if TrayIndexOf(tray, wins[k].id) < 0 {
        tray := tray + [TrayIcon(wins[k].id, wins[k].title, false)];
      }
    }

    /** `closeWindow(id)`. */
    method CloseWindow(id: string)
      requires Valid()
      modifies this, wins
      ensures State() == Close(old(State()), id) && Valid()
    {
      var k := IndexOfId(wins[..], id);
      if k < 0 {
        return;
      }
      HideAndDropIconOf(k);
      FocusLastShownWindow();
    }

    /** Hide window `k` and remove its tray icon. */
    method HideAndDropIconOf(k: nat)
      requires Valid() && k < wins.Length
      modifies this, wins
      ensures State() == HideAndDropIcon(old(State()), k) && Valid()
    {
      HideAndDropIconInv(State(), k);
      var t := TrayIndexOf(tray, wins[k].id);
      tray := WithoutIcon(tray, t);
      wins[k] := wins[k].(visible := false);
    }

    /** Focus the last window shown, in document order, if there is one. */
    method FocusLastShownWindow()
      requires Valid()
      modifies this, wins
      ensures State() == FocusLastShown(old(State())) && Valid()
    {
      var m := LastVisibleWindow();
      if m >= 0 {
        FocusWindow(m);
      }
    }

    /** `maximizeWindow(id)`, from the maximize button or a double-click on the title bar. */
    method MaximizeWindow(id: string, desktop: Size)
      requires Valid()
      modifies wins
      ensures State() == Maximize(old(State()), id, desktop) && Valid()
    {
      MaximizePreservesInv(State(), id, desktop);
      var k := IndexOfId(wins[..], id);
      if k >= 0 {
        wins[k] := ToggleMaximize(wins[k], desktop);
      }
    }

    /** The minimize button of window `k`. */
    method MinimizeWindow(k: int)
      requires Valid()
      modifies wins
      ensures State() == Minimize(old(State()), k) && Valid()
    {
      MinimizePreservesInv(State(), k);
      if 0 <= k < wins.Length {
        wins[k] := wins[k].(visible := false);
      }
    }

    /** Escape pressed on the page. */
    method EscapeKey()
      requires Valid()
      modifies wins
      ensures State() == Escape(old(State())) && Valid()
    {
      var k := FocusedWindow();
      MinimizeWindow(k);
    }

    /** A click on tray icon `t`. */
    method ClickTrayIcon(t: int)
      requires Valid()
      modifies this, wins
      ensures State() == ClickTray(old(State()), t) && Valid()
    {
      ghost var d := State();
      ClickTrayPreservesInv(d, t);
      if !(0 <= t < |tray|) {
        return;
      }
      var k := IndexOfId(wins[..], tray[t].id);
      if k < 0 {
        return;
      }
      if !wins[k].visible || !wins[k].focused {
        wins[k] := wins[k].(visible := true);
        InvFrame(d, State());
        FocusWindow(k);
      } else {
        wins[k] := wins[k].(visible := false);
      }
    }

    /** A mouse-down on the title bar of window `k`. */
    method TitleMouseDown(k: int, clientX: real, clientY: real, offsetLeft: real, offsetTop: real,
                          viewportWidth: real, onButton: bool)
      requires Valid()
      modifies wins
      ensures State() == BeginDrag(old(State()), k, clientX, clientY, offsetLeft, offsetTop, viewportWidth, onButton)
      ensures Valid()
    {
      DragPreservesInv(State(), k, clientX, clientY, offsetLeft, offsetTop, viewportWidth, onButton, Size(0.0, 0.0), Size(0.0, 0.0));
      if !(0 <= k < wins.Length) || viewportWidth <= CompactViewport {
        return;
      }
      if wins[k].maximized || onButton {
        return;
      }
      wins[k] := wins[k].(drag := Dragging(clientX - offsetLeft, clientY - offsetTop));
    }

    /** A pointer move seen by the drag listener of window `k`. */
    method MouseMove(k: int, clientX: real, clientY: real, size: Size, desktop: Size)
      requires Valid()
      modifies wins
      ensures State() == MoveDrag(old(State()), k, clientX, clientY, size, desktop) && Valid()
    {
      DragPreservesInv(State(), k, clientX, clientY, 0.0, 0.0, 0.0, false, size, desktop);
      if !(0 <= k < wins.Length) || !wins[k].drag.Dragging? {
        return;
      }
      var left := Clamp(clientX - wins[k].drag.grabX, size.width, desktop.width);
      var top := Clamp(clientY - wins[k].drag.grabY, size.height, desktop.height);
      wins[k] := wins[k].(geometry := wins[k].geometry.(left := Px(left), top := Px(top)));
    }

    /** Mouse-up ends the drag of window `k`. */
    method MouseUp(k: int)
      requires Valid()
      modifies wins
      ensures State() == EndDrag(old(State()), k) && Valid()
    {
      DragPreservesInv(State(), k, 0.0, 0.0, 0.0, 0.0, 0.0, false, Size(0.0, 0.0), Size(0.0, 0.0));
      if 0 <= k < wins.Length {
        wins[k] := wins[k].(drag := Idle);
      }
    }
  }
}
