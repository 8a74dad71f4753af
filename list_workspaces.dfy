/** The workspace list command: its load/error/loading state, the member
    count subtitle, the browser URL of a workspace and the empty-view text. */
module ListWorkspaces {
  import opened Wrappers
  import opened Strings
  import opened Types

  /** A workspace's subtitle: its member count, with "member" in the plural
      for any count but one. */
  function MemberSubtitle(membersCount: nat): (r: string)
    ensures membersCount == 1 ==> r == "1 member"
    ensures membersCount != 1 ==> r == NatToString(membersCount) + " members"
    ensures r == "1 member" <==> membersCount == 1
    ensures EndsWith(r, " members") <==> membersCount != 1
  {
    var count := NatToString(membersCount);
    var r := count + " member" + (if membersCount != 1 then "s" else "");
    if membersCount != 1 then
      assert r[|r| - 8..] == " members";
      assert r == count + " members";
      r
    else
      assert count == "1";
      assert r[|r| - 1] == 'r';
      r
  }

  lemma NoMembersIsPlural()
    ensures MemberSubtitle(0) == "0 members"
  {
  }

  /** The subtitle tells the member count: distinct counts read differently. */
  lemma MemberSubtitleInjective(a: nat, b: nat)
    requires MemberSubtitle(a) == MemberSubtitle(b)
    ensures a == b
  {
    var ta := if a == 1 then " member" else " members";
    var tb := if b == 1 then " member" else " members";
    assert MemberSubtitle(a) == NatToString(a) + ta;
    assert MemberSubtitle(b) == NatToString(b) + tb;
    DigitPrefixUnique(NatToString(a), ta, NatToString(b), tb);
    NatToStringInjective(a, b);
  }

  /** The "Open in Subnoto" link of a workspace. */
  function WorkspaceUrl(uuid: string): (url: string)
    ensures |url| == |AppEnvelopesUrl| + |uuid| + 4
    ensures url[..|AppEnvelopesUrl|] == AppEnvelopesUrl
    ensures url[|AppEnvelopesUrl|..|url| - 4] == uuid
    ensures url[|url| - 4..] == "/all"
  {
    var url := AppEnvelopesUrl + uuid + "/all";
    assert url[|AppEnvelopesUrl|..|url| - 4] == uuid;
    assert url[|url| - 4..] == "/all";
    url
  }

  /** Distinct workspaces open distinct pages. */
  lemma WorkspaceUrlInjective(a: string, b: string)
    requires WorkspaceUrl(a) == WorkspaceUrl(b)
    ensures a == b
  {
  }

  datatype EmptyViewText = EmptyViewText(title: string, description: string)

  /** The empty view: the error's texts when a load failed, the fixed
      "no workspaces" texts otherwise. */
  function EmptyView(error: Option<string>): (t: EmptyViewText)
    ensures error.Some? ==> t == EmptyViewText("Failed to load workspaces", error.value)
    ensures error.None? ==> t == EmptyViewText("No workspaces", "You don't have any Subnoto workspaces yet.")
  {
    match error
    case Some(message) => EmptyViewText("Failed to load workspaces", message)
    case None => EmptyViewText("No workspaces", "You don't have any Subnoto workspaces yet.")
  }

  /** The command's state. */
  class WorkspaceList {
    var workspaces: seq<Workspace>
    var isLoading: bool
    var error: Option<string>

    constructor ()
      ensures workspaces == [] && isLoading && error == None
    {
      workspaces := [];
      isLoading := true;
      error := None;
    }

    /** The start of `loadWorkspaces`, up to the awaited call. */
    method LoadStarted()
      modifies this
      ensures isLoading && error == None
      ensures workspaces == old(workspaces)
      ensures EmptyView(error) == EmptyViewText("No workspaces", "You don't have any Subnoto workspaces yet.")
    {
      isLoading := true;
      error := None;
    }

    /** The end of `loadWorkspaces`: a result replaces the list, a failure is
        recorded and keeps the previous list; loading is cleared either way. */
    method LoadSettled(result: Result<seq<Workspace>, Thrown>)
      modifies this
      ensures result.Success? ==> workspaces == result.value && error == old(error)
      ensures result.Failure? ==> workspaces == old(workspaces) && error == Some(AsErrorMessage(result.error))
      ensures result.Failure? ==> EmptyView(error) == EmptyViewText("Failed to load workspaces", AsErrorMessage(result.error))
      ensures !isLoading
    {
      match result {
        case Success(data) =>
          workspaces := data;
        case Failure(t) =>
          error := Some(AsErrorMessage(t));
      }
      isLoading := false;
    }
  }
}
