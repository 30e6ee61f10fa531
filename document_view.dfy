/** The document page (src/components/Dashboard/DocumentView.js): the like button's count and
    state, which the page steps by one on each successful toggle, and the comment box that
    refuses a blank comment and appends the stored one. */
module DocumentView {
  import opened JsValues
  import opened Lists

  /** A comment as the server returns it; only these fields are shown. */
  datatype Comment = Comment(userName: string, createdAt: int, content: string)

  /** The parts of a document the page updates: the user ids that liked it and its comments. */
  datatype Document = Document(title: string, likes: seq<string>, comments: seq<Comment>)

  /** The two pieces of state behind the like button. */
  datatype LikeState = LikeState(count: int, liked: bool)

  /** After a fetch: the number of likes, and whether the stored user id is among them
      (`None` is a missing `userId`, which no like carries). */
  function FromLikes(likes: seq<string>, userId: Option<string>): (r: LikeState)
    ensures r.count == |likes|
    ensures r.liked <==> userId.Some? && userId.value in likes
  {
    LikeState(|likes|, userId.Some? && userId.value in likes)
  }

  /** `handleLike`, with whether the POST succeeded as `ok`: an unlike lowers the count by one,
      a like raises it by one, and a failure changes nothing. */
  function Toggled(s: LikeState, ok: bool): (r: LikeState)
    ensures !ok ==> r == s
    ensures ok ==> r.liked == !s.liked
    ensures ok && s.liked ==> r.count == s.count - 1
    ensures ok && !s.liked ==> r.count == s.count + 1
  {
    if !ok then s
    else if s.liked then LikeState(s.count - 1, false)
    else LikeState(s.count + 1, true)
  }

  /** Two successful toggles bring back the count and the button. */
  lemma ToggleTwiceRestores(s: LikeState)
    ensures Toggled(Toggled(s, true), true) == s
  {
  }

  function SameId(x: string): string {
    x
  }

  /** The likes after the server has taken a toggle by `user`: an unlike removes the user, a
      like adds them at the end. */
  function ServerToggled(likes: seq<string>, user: string): (r: seq<string>)
    ensures user in likes ==> user !in r && forall x :: x in r <==> x in likes && x != user
    ensures user !in likes ==> r == likes + [user]
  {
    if user in likes then Without(likes, SameId, user) else likes + [user]
  }

  /** An id that occurs once is counted once. */
  lemma {:induction false} CountOnce(s: seq<string>, x: string)
    requires Distinct(s) && x in s
    ensures CountKey(s, SameId, x) == 1
  {
    if s[0] == x {
      CountAbsent(s[1..], x);
    } else {
      assert Distinct(s[1..]) by {
        forall i, j | 0 <= i < j < |s[1..]| ensures s[1..][i] != s[1..][j] {
          assert s[1..][i] == s[i + 1] && s[1..][j] == s[j + 1];
        }
      }
      CountOnce(s[1..], x);
    }
  }

  lemma {:induction false} CountAbsent(s: seq<string>, x: string)
    requires forall i :: 0 <= i < |s| ==> s[i] != x
    ensures CountKey(s, SameId, x) == 0
  {
    if s != [] {
      CountAbsent(s[1..], x);
    }
  }

  /** When each user likes a document at most once, the page's own stepping of the button
      agrees with what fetching the document again after the toggle would show. */
  lemma ToggleMatchesRefetch(likes: seq<string>, user: string)
    requires Distinct(likes)
    ensures Toggled(FromLikes(likes, Some(user)), true) == FromLikes(ServerToggled(likes, user), Some(user))
  {
    if user in likes {
      CountOnce(likes, user);
    }
  }

  /** `likesCount === 1 ? 'Like' : 'Likes'`. */
  function LikesLabel(count: int): (r: string)
    ensures r == "Like" <==> count == 1
    ensures r == "Likes" <==> count != 1
  {
    if count == 1 then "Like" else "Likes"
  }

  /** The body of the comment POST, if one is sent: nothing for a comment that is empty
      once trimmed, otherwise the text as typed, surrounding white space included. */
  function CommentRequest(text: string): (r: Option<string>)
    ensures r.None? <==> IsBlank(text)
    ensures r.Some? ==> r.value == text
  {
    if IsBlank(text) then None else Some(text)
  }

  /** Spaces, tabs and line breaks alone are not a comment; one letter among them is, and
      it is sent with the spaces around it. */
  lemma BlankCommentsRefused()
    ensures CommentRequest("") == None
    ensures CommentRequest(" \t\n") == None
    ensures CommentRequest(" ok ") == Some(" ok ")
  {
    assert !IsJsWhitespace(" ok "[1]);
  }

  /** `{ ...prev, comments: [...prev.comments, comment] }`. */
  function WithComment(d: Document, c: Comment): (r: Document)
    ensures |r.comments| == |d.comments| + 1
    ensures r.comments[..|d.comments|] == d.comments && r.comments[|d.comments|] == c
    ensures r.title == d.title && r.likes == d.likes
  {
    d.(comments := d.comments + [c])
  }

  datatype LikeRequest = LikePost | UnlikePost

  class DocumentViewState {
    var document: Option<Document>
    var loading: bool
    var hasLiked: bool
    var likesCount: int
    var newComment: string

    constructor()
      ensures document == None && loading && !hasLiked && likesCount == 0 && newComment == ""
    {
      document := None;
      loading := true;
      hasLiked := false;
      likesCount := 0;
      newComment := "";
    }

    function Likes(): LikeState
      reads this
    {
      LikeState(likesCount, hasLiked)
    }

    /** `fetchDocument`, with the body of the GET as `response` (`None` when it fails) and the
        stored user id as `userId`. Loading ends either way. */
    method FetchDocument(response: Option<Document>, userId: Option<string>)
      modifies this
      ensures !loading && newComment == old(newComment)
      ensures response.Some? ==>
                document == response && Likes() == FromLikes(response.value.likes, userId)
      ensures response.None? ==> document == old(document) && Likes() == old(Likes())
    {
      if response.Some? {
        document := response;
        likesCount := |response.value.likes|;
        hasLiked := userId.Some? && userId.value in response.value.likes;
      }
      loading := false;
    }

    /** `handleLike`, with the outcome of the POST as `ok`; returns which POST it sends. */
    method HandleLike(ok: bool) returns (request: LikeRequest)
      modifies this
      ensures request == if old(hasLiked) then UnlikePost else LikePost
      ensures Likes() == Toggled(old(Likes()), ok)
      ensures document == old(document) && loading == old(loading) && newComment == old(newComment)
    {
      if hasLiked {
        request := UnlikePost;
        if ok {
          likesCount := likesCount - 1;
          hasLiked := false;
        }
      } else {
        request := LikePost;
        if ok {
          likesCount := likesCount + 1;
          hasLiked := true;
        }
      }
    }

    /** The text field's `onChange`. */
    method SetNewComment(text: string)
      modifies this
      ensures newComment == text
      ensures document == old(document) && loading == old(loading) && Likes() == old(Likes())
    {
      newComment := text;
    }

    /** `handleAddComment`, with the comment the server stores as `stored` (`None` when the
        POST fails). The button is only drawn once a document is shown. */
    method HandleAddComment(stored: Option<Comment>) returns (request: Option<string>)
      requires document.Some?
      modifies this
      ensures request == CommentRequest(old(newComment))
      ensures request.Some? && stored.Some? ==>
                document == Some(WithComment(old(document).value, stored.value)) && newComment == ""
      ensures request.None? || stored.None? ==> document == old(document) && newComment == old(newComment)
      ensures loading == old(loading) && Likes() == old(Likes())
    {
      request := CommentRequest(newComment);
      if request.None? {
        return;
      }
      if stored.Some? {
        document := Some(WithComment(document.value, stored.value));
        newComment := "";
      }
    }
  }
}
