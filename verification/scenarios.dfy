/** A project at /home/u/app that holds its own Gemfile. */
module Scenarios {
  import opened Options
  import opened Paths
  import ProjectRoot
  import CacheKey
  import Strings
  import opened Launcher

  const App: Path := ["home", "u", "app"]

  function FreshInvocation(): Invocation {
    Invocation(Some(["home", "u"]), App, map[], ["rubocop-daemon-wrapper", "check", "file.rb"], "")
  }

  /** Started in the project directory, the resolved root is the directory
      itself, rendered as "/home/u/app". */
  lemma AppRootText()
    ensures RootText(FreshInvocation(), Host(true, {}, {App}, map[])) == "/home/u/app"
  {
    assert FreshInvocation().cwd in {App};
    AppPathString();
  }

  lemma AppPathString()
    ensures PathString(App) == "/home/u/app"
  {
    assert Slashed(["app"]) == "/app" by {
      assert Slashed(["app"]) == "/app" + Slashed([]);
    }
    assert Slashed(["u", "app"]) == "/u/app" by {
      assert ["u", "app"][1..] == ["app"];
    }
    assert Slashed(App) == "/home/u/app" by {
      assert App[1..] == ["u", "app"];
    }
  }

  /** The session directory of /home/u/app is named "home+u+app": leading
      separators are stripped, not replaced. */
  lemma AppKey()
    ensures CacheKey.Key(PathString(App)) == "home+u+app"
  {
    CacheKey.KeyOfPath(App);
    AppJoined();
  }

  lemma AppJoined()
    ensures Strings.JoinWith(App, "+") == "home+u+app"
  {
    assert App[1..] == ["u", "app"] && App[1..][1..] == ["app"];
  }
}
