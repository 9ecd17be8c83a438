/** The admin dashboard's gating: the auth hook's `loading` (here
    `authLoading`) and `isAuthenticated` are inputs, the page keeps its own
    `loading` flag, and navigation is returned as the target path. */
module AdminDashboard {
  import opened Common

  const LoginPath: string := "/admin/login"

  /** What the page renders. */
  datatype Screen = Spinner | Nothing | Content

  /** One tile of the stats grid. */
  datatype Stat = Stat(title: string, count: nat)

  /** The render gating: the spinner while either flag is loading, nothing
      for an unauthenticated user, the dashboard otherwise. */
  function ScreenFor(authLoading: bool, loading: bool, isAuthenticated: bool): (s: Screen)
    ensures s == Spinner <==> authLoading || loading
    ensures s == Content <==> isAuthenticated && !authLoading && !loading
    ensures s == Nothing <==> !isAuthenticated && !authLoading && !loading
  {
    if authLoading || loading then Spinner
    else if !isAuthenticated then Nothing
    else Content
  }

  /** `data?.length || 0`. */
  function StatCount<T>(data: Option<seq<T>>): (n: nat)
    ensures data.Some? ==> n == |data.value|
    ensures data.None? ==> n == 0
  {
    if data.Some? then |data.value| else 0
  }

  /** The four tiles, in the order they are shown; each count is the size of
      the collection its query returned, or 0 while it has none. */
  function Stats<A, G, M, L>(announcements: Option<seq<A>>, gallery: Option<seq<G>>,
                             materials: Option<seq<M>>, leadership: Option<seq<L>>): (stats: seq<Stat>)
    ensures |stats| == 4
    ensures stats[0].title == "Announcements" && stats[1].title == "Gallery Images"
    ensures stats[2].title == "Learning Materials" && stats[3].title == "Leadership Team"
    ensures stats[0].count == (if announcements.Some? then |announcements.value| else 0)
    ensures stats[1].count == (if gallery.Some? then |gallery.value| else 0)
    ensures stats[2].count == (if materials.Some? then |materials.value| else 0)
    ensures stats[3].count == (if leadership.Some? then |leadership.value| else 0)
  {
    [ Stat("Announcements", StatCount(announcements)),
      Stat("Gallery Images", StatCount(gallery)),
      Stat("Learning Materials", StatCount(materials)),
      Stat("Leadership Team", StatCount(leadership)) ]
  }

  class Dashboard {
    var loading: bool

    constructor ()
      ensures loading
    {
      loading := true;
    }

    /** The `checkAuth` effect, run whenever the auth inputs change: it waits
        while auth loads, sends an unauthenticated user to the login page
        leaving the page's own loading flag as it was, and otherwise greets
        the admin and clears that flag. */
    method CheckAuth(authLoading: bool, isAuthenticated: bool) returns (navigateTo: Option<string>, toast: Option<Toast>)
      modifies this
      ensures authLoading ==> navigateTo == None && toast == None && loading == old(loading)
      ensures !authLoading && !isAuthenticated ==>
        navigateTo == Some(LoginPath) && toast == None && loading == old(loading)
      ensures !authLoading && isAuthenticated ==> navigateTo == None && !loading
      ensures toast.Some? <==> !authLoading && isAuthenticated
      ensures toast.Some? ==> toast.value == Toast("Welcome to Admin Dashboard", "You are now logged in as admin", false)
      ensures ScreenFor(authLoading, loading, isAuthenticated) == Content <==> !authLoading && isAuthenticated
    {
      if authLoading {
        return None, None;
      }
      if !isAuthenticated {
        return Some(LoginPath), None;
      }
      toast := Some(Toast("Welcome to Admin Dashboard", "You are now logged in as admin", false));
      loading := false;
      navigateTo := None;
    }

    /** `handleSignOut`: once the hook's `signOut` resolves, the page shows
        the success toast and goes to the login page, whatever the sign-out
        reported; only a throwing `signOut` shows the error toast and stays.
        Both `signOut` implementations in the repository (in `useAuth.tsx`
        and `useAuth.ts`) catch every exception and resolve with `{ error }`,
        so with the source as written `signOutThrew` is always false and the
        error branch is kept only because the page's own handler has it. */
    method HandleSignOut(signOutThrew: bool) returns (navigateTo: Option<string>, toast: Toast)
      ensures navigateTo.Some? <==> !signOutThrew
      ensures navigateTo.Some? ==> navigateTo.value == LoginPath
      ensures toast.destructive <==> signOutThrew
      ensures toast.title == (if signOutThrew then "Sign Out Error" else "Signed Out")
    {
      if !signOutThrew {
        toast := Toast("Signed Out", "You have been successfully signed out.", false);
        navigateTo := Some(LoginPath);
      } else {
        toast := Toast("Sign Out Error", "Failed to sign out. Please try again.", true);
        navigateTo := None;
      }
    }
  }
}
