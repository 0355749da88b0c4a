/**
 * The content-window registry of src/main.js: the `openWindows` object
 * keyed by node id, the `windowZIndex` counter, `activeWindowId`, and the
 * taskbar of minimized windows. DOM elements are reduced to the values
 * the registry writes into them: the z-index, the initial offset and the
 * two flags.
 */
module Windows {
  import opened Text
  import Graph

  /** An entry of `openWindows`, with the element's z-index and initial offset. */
  datatype Window = Window(node: Graph.Node, zIndex: int, left: int, top: int, minimized: bool, maximized: bool)

  const InitialZIndex := 200

  /** The ids `updateTaskbar` lists: those whose window is minimized. */
  function MinimizedIds(ws: map<string, Window>): set<string> {
    set id | id in ws && ws[id].minimized
  }

  /** Every open window lies at or below the counter, and no two share a z-index. */
  ghost predicate Stacked(ws: map<string, Window>, counter: int) {
    && (forall id :: id in ws ==> ws[id].zIndex <= counter)
    && (forall a, b :: a in ws && b in ws && a != b ==> ws[a].zIndex != ws[b].zIndex)
  }

  /** The active window, while it is open, holds the counter's value. */
  ghost predicate ActiveOnCounter(ws: map<string, Window>, counter: int, active: Option<string>) {
    active.Some? && active.value in ws ==> ws[active.value].zIndex == counter
  }

  /** The active window, while it is open, is drawn above every other open window. */
  lemma ActiveOnTop(ws: map<string, Window>, counter: int, active: Option<string>)
    requires Stacked(ws, counter) && ActiveOnCounter(ws, counter, active)
    requires active.Some? && active.value in ws
    ensures forall id :: id in ws && id != active.value ==> ws[id].zIndex < ws[active.value].zIndex
  {
    forall id | id in ws && id != active.value
      ensures ws[id].zIndex < ws[active.value].zIndex
    {
      assert ws[id].zIndex != ws[active.value].zIndex;
    }
  }

  /** Giving one window a z-index above the counter keeps the stack and makes it the top. */
  lemma RaiseKeepsStacked(ws: map<string, Window>, counter: int, id: string)
    requires Stacked(ws, counter) && id in ws
    ensures Stacked(ws[id := ws[id].(zIndex := counter + 1)], counter + 1)
    ensures ActiveOnCounter(ws[id := ws[id].(zIndex := counter + 1)], counter + 1, Some(id))
  {
    var ws' := ws[id := ws[id].(zIndex := counter + 1)];
    forall a, b | a in ws' && b in ws' && a != b
      ensures ws'[a].zIndex != ws'[b].zIndex
    {
      if a != id && b != id {
        assert ws'[a] == ws[a] && ws'[b] == ws[b];
      }
    }
  }

  /** A new entry one above the counter keeps the stack. */
  lemma InsertKeepsStacked(ws: map<string, Window>, counter: int, id: string, w: Window)
    requires Stacked(ws, counter) && id !in ws && w.zIndex == counter + 1
    ensures Stacked(ws[id := w], counter + 1)
  {
  }

  /** A new entry that is not minimized leaves the taskbar's ids as they were. */
  lemma MinimizedAfterInsert(ws: map<string, Window>, id: string, w: Window)
    requires id !in ws && !w.minimized
    ensures MinimizedIds(ws[id := w]) == MinimizedIds(ws)
  {
  }

  /** Setting one window's `minimized` flag adds it to, or removes it from, the taskbar's ids. */
  lemma MinimizedAfterSet(ws: map<string, Window>, id: string, flag: bool)
    requires id in ws
    ensures MinimizedIds(ws[id := ws[id].(minimized := flag)]) ==
      if flag then MinimizedIds(ws) + {id} else MinimizedIds(ws) - {id}
  {
  }

  /** Closing a window drops it from the taskbar's ids and leaves the others. */
  lemma MinimizedAfterClose(ws: map<string, Window>, id: string)
    ensures MinimizedIds(ws - {id}) == MinimizedIds(ws) - {id}
  {
  }

  /** Two maximize toggles leave a registry as it was. */
  lemma ToggleTwice(ws: map<string, Window>, id: string)
    requires id in ws
    ensures var once := ws[id := ws[id].(maximized := !ws[id].maximized)];
      once[id := once[id].(maximized := !once[id].maximized)] == ws
  {
    var once := ws[id := ws[id].(maximized := !ws[id].maximized)];
    assert once[id := once[id].(maximized := !once[id].maximized)][id] == ws[id];
  }

  class WindowRegistry {
    var openWindows: map<string, Window>
    var windowZIndex: int
    var activeWindowId: Option<string>
    var taskbar: set<string>
    var taskbarVisible: bool

    /**
     * The taskbar shows exactly the minimized windows, the counter never
     * falls below its start, the windows are stacked below it, and the
     * active one, while open, is on top.
     */
    ghost predicate Valid()
      reads this
    {
      Consistent() && ActiveOnCounter(openWindows, windowZIndex, activeWindowId)
    }

    /** `Valid` without the claim about the active window. */
    ghost predicate Consistent()
      reads this
    {
      && taskbar == MinimizedIds(openWindows)
      && taskbarVisible == (taskbar != {})
      && windowZIndex >= InitialZIndex
      && Stacked(openWindows, windowZIndex)
    }

    /** The module-level initial state: no windows, counter 200, nothing active. */
    constructor ()
      ensures Valid()
      ensures openWindows == map[] && windowZIndex == InitialZIndex && activeWindowId == None
    {
      openWindows := map[];
      windowZIndex := InitialZIndex;
      activeWindowId := None;
      taskbar := {};
      taskbarVisible := false;
    }

    /** `updateTaskbar`: list the minimized windows and show the bar when there is one. */
    method UpdateTaskbar()
      modifies this
      ensures taskbar == MinimizedIds(openWindows) && taskbarVisible == (taskbar != {})
      ensures openWindows == old(openWindows) && windowZIndex == old(windowZIndex)
      ensures activeWindowId == old(activeWindowId)
    {
      taskbar := set id | id in openWindows && openWindows[id].minimized;
      taskbarVisible := |taskbar| > 0;
    }

    /** `bringToFront`: an open window gets the next z-index and becomes active; an unknown id changes nothing. */
    method BringToFront(windowId: string)
      requires Consistent() && (windowId in openWindows || Valid())
      modifies this
      ensures Valid()
      ensures windowId !in old(openWindows) ==>
        openWindows == old(openWindows) && windowZIndex == old(windowZIndex) && activeWindowId == old(activeWindowId)
      ensures windowId in old(openWindows) ==>
        && windowZIndex == old(windowZIndex) + 1
        && openWindows == old(openWindows)[windowId := old(openWindows)[windowId].(zIndex := windowZIndex)]
        && activeWindowId == Some(windowId)
      ensures taskbar == old(taskbar)
    {
      if windowId in openWindows {
        RaiseKeepsStacked(openWindows, windowZIndex, windowId);
        windowZIndex := windowZIndex + 1;
        openWindows := openWindows[windowId := openWindows[windowId].(zIndex := windowZIndex)];
        activeWindowId := Some(windowId);
      }
    }

    /** `minimizeWindow`: set the flag and refresh the taskbar. */
    method MinimizeWindow(windowId: string)
      requires Valid()
      modifies this
      ensures Valid()
      ensures windowId !in old(openWindows) ==> openWindows == old(openWindows)
      ensures windowId in old(openWindows) ==>
        openWindows == old(openWindows)[windowId := old(openWindows)[windowId].(minimized := true)]
      ensures windowZIndex == old(windowZIndex) && activeWindowId == old(activeWindowId)
    {
      if windowId !in openWindows {
        return;
      }
      openWindows := openWindows[windowId := openWindows[windowId].(minimized := true)];
      UpdateTaskbar();
    }

    /** `restoreWindow`: clear the flag, refresh the taskbar and bring the window to the front. */
    method RestoreWindow(windowId: string)
      requires Valid()
      modifies this
      ensures Valid()
      ensures windowId !in old(openWindows) ==>
        openWindows == old(openWindows) && windowZIndex == old(windowZIndex) && activeWindowId == old(activeWindowId)
      ensures windowId in old(openWindows) ==>
        && windowZIndex == old(windowZIndex) + 1
        && openWindows == old(openWindows)[windowId := old(openWindows)[windowId].(minimized := false, zIndex := windowZIndex)]
        && activeWindowId == Some(windowId)
    {
      if windowId !in openWindows {
        return;
      }
      openWindows := openWindows[windowId := openWindows[windowId].(minimized := false)];
      UpdateTaskbar();
      BringToFront(windowId);
    }

    /** `toggleMaximize`: flip the flag of an open window. */
    method ToggleMaximize(windowId: string)
      requires Valid()
      modifies this
      ensures Valid()
      ensures windowId !in old(openWindows) ==> openWindows == old(openWindows)
      ensures windowId in old(openWindows) ==>
        openWindows == old(openWindows)[windowId := old(openWindows)[windowId].(maximized := !old(openWindows)[windowId].maximized)]
      ensures windowZIndex == old(windowZIndex) && activeWindowId == old(activeWindowId) && taskbar == old(taskbar)
    {
      if windowId !in openWindows {
        return;
      }
      var win := openWindows[windowId];
      openWindows := openWindows[windowId := win.(maximized := !win.maximized)];
    }

    /**
     * `closeWindow`: remove only that entry and refresh the taskbar. The
     * source leaves `activeWindowId` naming the closed window.
     */
    method CloseWindow(windowId: string)
      requires Valid()
      modifies this
      ensures Valid()
      ensures openWindows == old(openWindows) - {windowId}
      ensures windowZIndex == old(windowZIndex) && activeWindowId == old(activeWindowId)
    {
      if windowId !in openWindows {
        return;
      }
      openWindows := openWindows - {windowId};
      UpdateTaskbar();
    }

    /**
     * The registry part of `createWindow`, up to its first `await`: an
     * open node is restored and brought to the front (twice, as the source
     * does); a new one gets an entry offset by the number of open windows,
     * the next z-index, and is then brought to the front.
     */
    method CreateWindow(node: Graph.Node)
      requires Valid()
      modifies this
      ensures Valid()
      ensures windowZIndex == old(windowZIndex) + 2
      ensures activeWindowId == Some(node.id)
      ensures node.id in old(openWindows) ==>
        openWindows == old(openWindows)[node.id := old(openWindows)[node.id].(minimized := false, zIndex := windowZIndex)]
      ensures node.id !in old(openWindows) ==>
        openWindows == old(openWindows)[node.id := Window(node, windowZIndex,
          100 + |old(openWindows)| * 30, 80 + |old(openWindows)| * 30, false, false)]
    {
      if node.id in openWindows {
        RestoreWindow(node.id);
        BringToFront(node.id);
        return;
      }
      InsertWindow(node);
      BringToFront(node.id);
    }

    /** The new-node branch of `createWindow` before its `bringToFront`. */
    method InsertWindow(node: Graph.Node)
      requires Consistent() && node.id !in openWindows
      modifies this
      ensures Consistent()
      ensures windowZIndex == old(windowZIndex) + 1
      ensures openWindows == old(openWindows)[node.id := Window(node, windowZIndex,
        100 + |old(openWindows)| * 30, 80 + |old(openWindows)| * 30, false, false)]
      ensures activeWindowId == old(activeWindowId)
    {
      var count := |openWindows|;
      var win := Window(node, windowZIndex + 1, 100 + count * 30, 80 + count * 30, false, false);
      InsertKeepsStacked(openWindows, windowZIndex, node.id, win);
      MinimizedAfterInsert(openWindows, node.id, win);
      windowZIndex := windowZIndex + 1;
      openWindows := openWindows[node.id := win];
    }
  }
}
