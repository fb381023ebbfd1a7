/** The sidebar selection of src/overmind/rootState.ts and the
    `setActiveSidebarView` action of src/overmind/actions.ts: choosing the
    view that is already shown hides the sidebar, choosing another shows
    that one. */
module Sidebar {
  datatype SidebarView = Hidden | FileExplorer | Debug

  /** The view after asking for `requested` while `current` is shown. */
  function Toggled(current: SidebarView, requested: SidebarView): (r: SidebarView)
    ensures r == requested || r == Hidden
    ensures r == Hidden <==> current == requested || requested == Hidden
  {
    if current == requested then Hidden else requested
  }

  /** The root state: only the selected sidebar view is modelled. */
  class RootState {
    var selectedSidebarView: SidebarView

    /** The initial state shows the file explorer. */
    constructor ()
      ensures selectedSidebarView == FileExplorer
    {
      selectedSidebarView := FileExplorer;
    }

    /** `setActiveSidebarView`. */
    method SetActiveSidebarView(requested: SidebarView)
      modifies this
      ensures selectedSidebarView == Toggled(old(selectedSidebarView), requested)
    {
      if selectedSidebarView == requested {
        selectedSidebarView := Hidden;
      } else {
        selectedSidebarView := requested;
      }
    }
  }

  /** Asking twice for a view that was not shown first shows it and then
      hides the sidebar. */
  lemma SelectTwice(start: SidebarView, v: SidebarView)
    requires start != v
    ensures Toggled(start, v) == v && Toggled(Toggled(start, v), v) == Hidden
  {
  }

  /** Asking for the view that is shown hides the sidebar; asking for Hidden
      never shows anything. */
  lemma SelectShown(v: SidebarView)
    ensures Toggled(v, v) == Hidden && Toggled(v, Hidden) == Hidden
  {
  }
}
