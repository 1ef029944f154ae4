/**
 * Route gating of src/App.tsx: the `ProtectedRoute` guard and the route
 * table of `AppContent`. A path is given as its list of segments, as the
 * router sees it once the pathname is split at `/` with empty segments
 * dropped (so `/` is the empty list). Static segments match without
 * regard to ASCII case, as the router's routes do by default.
 */
module Routing {
  import opened Types
  import Text

  type Path = seq<string>

  datatype Page =
    | LoginPage
    | RegisterPage
    | DashboardPage
    | ContentListPage
    | ContentFormPage(editId: Option<string>)

  /** What a route renders: a page, or `<Navigate to=... replace />`. */
  datatype Element = Render(page: Page) | Navigate(to: Path)

  const LoginPath: Path := ["login"]
  const DashboardPath: Path := ["dashboard"]

  /** `ProtectedRoute`: it reads nothing of the session but `isAuthenticated`. */
  function ProtectedRoute(state: AuthState, child: Page): (e: Element)
    ensures e == Navigate(LoginPath) <==> !state.isAuthenticated
    ensures e.Render? <==> state.isAuthenticated
    ensures e.Render? ==> e.page == child
  {
    if !state.isAuthenticated then Navigate(LoginPath) else Render(child)
  }

  /** Every segment of the path, lower-cased. */
  function LowerPath(path: Path): (r: Path)
    ensures |r| == |path|
  {
    seq(|path|, i requires 0 <= i < |path| => Text.Lower(path[i]))
  }

  /** The path matches a route pattern made of static, lower-case segments. */
  predicate MatchesStatic(path: Path, pattern: Path) {
    LowerPath(path) == pattern
  }

  /** The path matches `/contents/edit/:id`; the dynamic segment must be non-empty. */
  predicate MatchesEdit(path: Path) {
    |path| == 3 && Text.Lower(path[0]) == "contents" && Text.Lower(path[1]) == "edit" && path[2] != ""
  }

  /** The paths the table names explicitly (all but the catch-all and `/`). */
  predicate IsDeclared(path: Path) {
    MatchesStatic(path, ["login"]) || MatchesStatic(path, ["register"])
    || MatchesStatic(path, ["dashboard"]) || MatchesStatic(path, ["contents"])
    || MatchesStatic(path, ["contents", "new"]) || MatchesEdit(path)
  }

  /** The paths whose element is wrapped in `ProtectedRoute`. */
  predicate IsGuarded(path: Path) {
    MatchesStatic(path, ["dashboard"]) || MatchesStatic(path, ["contents"])
    || MatchesStatic(path, ["contents", "new"]) || MatchesEdit(path)
  }

  /** `AppContent`: the element the router renders for a path. */
  function Route(path: Path, state: AuthState): (e: Element)
    ensures !IsDeclared(path) ==> e == Navigate(DashboardPath)
    ensures IsGuarded(path) ==> (e.Render? <==> state.isAuthenticated)
    ensures e.Navigate? ==> e.to == LoginPath || e.to == DashboardPath
  {
    if MatchesStatic(path, ["login"]) then Render(LoginPage)
    else if MatchesStatic(path, ["register"]) then Render(RegisterPage)
    else if MatchesStatic(path, ["dashboard"]) then ProtectedRoute(state, DashboardPage)
    else if MatchesStatic(path, ["contents"]) then ProtectedRoute(state, ContentListPage)
    else if MatchesStatic(path, ["contents", "new"]) then ProtectedRoute(state, ContentFormPage(None))
    else if MatchesEdit(path) then ProtectedRoute(state, ContentFormPage(Some(path[2])))
    // both `/` and the catch-all `*` redirect to the dashboard
    else Navigate(DashboardPath)
  }

  /** The router's next step: a `Navigate` is followed, a page stays. */
  function Follow(e: Element, state: AuthState): (next: Element)
    ensures e.Render? ==> next == e
    ensures next.Navigate? ==> next.to == LoginPath || next.to == DashboardPath
  {
    if e.Navigate? then Route(e.to, state) else e
  }

  /** A path whose segments have no upper-case letter lower-cases to itself. */
  lemma LowerPathFixed(path: Path)
    requires forall i, j :: 0 <= i < |path| && 0 <= j < |path[i]| ==> !Text.IsUpper(path[i][j])
    ensures LowerPath(path) == path
  {
    forall i | 0 <= i < |path|
      ensures LowerPath(path)[i] == path[i]
    {
      assert forall j :: 0 <= j < |path[i]| ==> !Text.IsUpper(path[i][j]);
    }
  }

  /** `/login` and `/register` render their pages whatever the session. */
  lemma LoginRegisterUnguarded(state: AuthState)
    ensures Route(LoginPath, state) == Render(LoginPage)
    ensures Route(["register"], state) == Render(RegisterPage)
    ensures !IsGuarded(LoginPath) && !IsGuarded(["register"])
  {
    LowerPathFixed(["login"]);
    LowerPathFixed(["register"]);
    assert ["register"] != ["login"] by { assert |"register"| != |"login"|; }
    assert ["register"] != ["dashboard"] by { assert |"register"| != |"dashboard"|; }
    assert ["register"] != ["contents"] by { assert "register"[0] != "contents"[0]; }
    assert ["login"] != ["contents"] by { assert |"login"| != |"contents"|; }
    assert ["login"] != ["dashboard"] by { assert |"login"| != |"dashboard"|; }
  }

  /** The four guarded paths render their page exactly when the session is authenticated. */
  lemma GuardedRoutes(state: AuthState, id: string)
    requires id != ""
    ensures Route(DashboardPath, state) == ProtectedRoute(state, DashboardPage)
    ensures Route(["contents"], state) == ProtectedRoute(state, ContentListPage)
    ensures Route(["contents", "new"], state) == ProtectedRoute(state, ContentFormPage(None))
    ensures Route(["contents", "edit", id], state) == ProtectedRoute(state, ContentFormPage(Some(id)))
  {
    LowerPathFixed(["dashboard"]);
    LowerPathFixed(["contents"]);
    LowerPathFixed(["contents", "new"]);
    assert ["dashboard"] != ["login"] by { assert |"dashboard"| != |"login"|; }
    assert ["dashboard"] != ["register"] by { assert |"dashboard"| != |"register"|; }
    assert ["contents"] != ["login"] by { assert |"contents"| != |"login"|; }
    assert ["contents"] != ["register"] by { assert "contents"[0] != "register"[0]; }
    assert ["contents"] != ["dashboard"] by { assert |"contents"| != |"dashboard"|; }
    var edit: Path := ["contents", "edit", id];
    assert |LowerPath(edit)| == 3;
    assert Text.Lower("contents") == "contents";
    assert Text.Lower("edit") == "edit";
    assert "edit" != "new" by { assert |"edit"| != |"new"|; }
    assert LowerPath(edit)[1] == "edit";
  }

  /** `/` and every undeclared path go to `/dashboard`; an anonymous session then lands on `/login`. */
  lemma FallbackToDashboard(path: Path, state: AuthState)
    requires path == [] || !IsDeclared(path)
    ensures Route(path, state) == Navigate(DashboardPath)
    ensures !state.isAuthenticated ==>
      Follow(Route(path, state), state) == Navigate(LoginPath)
      && Follow(Follow(Route(path, state), state), state) == Render(LoginPage)
    ensures state.isAuthenticated ==>
      Follow(Route(path, state), state) == Render(DashboardPage)
  {
    LoginRegisterUnguarded(state);
    GuardedRoutes(state, "1");
  }

  /**
   * The list's "view" link `/contents/view/:id` is not in the table, so
   * it falls to the catch-all.
   */
  lemma ViewLinkFallsThrough(id: string, state: AuthState)
    ensures Route(["contents", "view", id], state) == Navigate(DashboardPath)
  {
    var p: Path := ["contents", "view", id];
    assert Text.Lower("view") == "view";
    assert "view" != "edit" by { assert "view"[0] != "edit"[0]; }
    assert !MatchesEdit(p);
    assert |LowerPath(p)| == 3;
  }
}
