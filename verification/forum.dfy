/**
 * The in-memory forum of src/App.tsx: a list of posts, an optional current
 * user and the state of the "create post" form.  Every handler replaces whole
 * values (setPosts, setCurrentUser), so each one is modelled as a function from
 * the old value to the new one.  Ids (Date.now().toString()) and timestamps
 * (new Date()) are passed in as parameters.
 */
module Forum {
  import opened Wrappers

  datatype User = User(id: string, username: string, avatar: string)

  datatype Comment = Comment(
    id: string,
    content: string,
    author: User,
    upvotes: nat,
    downvotes: nat,
    createdAt: int)

  /** A post records its category by NAME, the value the form's select offers. */
  datatype Post = Post(
    id: string,
    title: string,
    content: string,
    author: User,
    category: string,
    upvotes: nat,
    downvotes: nat,
    comments: seq<Comment>,
    createdAt: int)

  datatype Category = Category(id: string, name: string, description: string, icon: string)

  /** Everything App keeps in useState. */
  datatype AppState = AppState(
    currentUser: Option<User>,
    categories: seq<Category>,
    posts: seq<Post>,
    showCreatePostModal: bool,
    newPostTitle: string,
    newPostContent: string,
    newPostCategory: string)

  // ---------------------------------------------------------------- seed state

  function SeedCategories(): seq<Category>
  {
    [ Category("1", "General Discussion", "Talk about anything and everything", "\U{1F4AC}"),
      Category("2", "Technology", "Latest tech news and discussions", "\U{1F4BB}"),
      Category("3", "Gaming", "Video games and gaming culture", "\U{1F3AE}") ]
  }

  function SeedPosts(now: int): seq<Post>
  {
    [ Post("1", "Welcome to the Future Forum!",
           "This is a futuristic forum where you can discuss anything you want.",
           User("1", "Admin", "\U{1F468}\U{200D}\U{1F4BB}"),
           "General Discussion", 10, 0, [], now) ]
  }

  /** Every post has a non-empty title and a non-empty content. */
  ghost predicate AllFilled(posts: seq<Post>)
  {
    forall i :: 0 <= i < |posts| ==> posts[i].title != "" && posts[i].content != ""
  }

  /** What every reachable state keeps: the category list is never empty (the
      form's reset reads its first entry) and every post was filled in. */
  ghost predicate Inv(s: AppState)
  {
    |s.categories| > 0 && AllFilled(s.posts)
  }

  /** The state App starts in; the form's category starts at the first category's name. */
  function InitialState(now: int): (s: AppState)
    ensures s.currentUser == None && !s.showCreatePostModal
    ensures s.newPostTitle == "" && s.newPostContent == ""
    ensures |s.categories| == 3 && s.newPostCategory == s.categories[0].name
    ensures |s.posts| == 1 && s.posts[0].upvotes - s.posts[0].downvotes == 10
    ensures Inv(s)
  {
    var cs := SeedCategories();
    AppState(None, cs, SeedPosts(now), false, "", "", cs[0].name)
  }

  // ---------------------------------------------------------------- login

  /** handleLogin: any username is accepted; the user always gets id "2" and the
      generic avatar.  Nothing but the current user changes. */
  function Login(s: AppState, username: string): (r: AppState)
    ensures r.currentUser.Some?
    ensures r.currentUser.value.id == "2" && r.currentUser.value.username == username
    ensures r.currentUser.value.avatar == "\U{1F464}"
    ensures r.(currentUser := s.currentUser) == s
  {
    s.(currentUser := Some(User("2", username, "\U{1F464}")))
  }

  // ---------------------------------------------------------------- voting

  /** The number shown between the vote arrows. */
  function Score(p: Post): int
  {
    p.upvotes - p.downvotes
  }

  function VotedOn(p: Post, isUpvote: bool): Post
  {
    p.(upvotes := if isUpvote then p.upvotes + 1 else p.upvotes,
       downvotes := if !isUpvote then p.downvotes + 1 else p.downvotes)
  }

  /** handleVote: every post whose id equals postId (ids can collide) gets one
      more up- or downvote; nothing else in the list changes. */
  function Vote(posts: seq<Post>, postId: string, isUpvote: bool): (r: seq<Post>)
    ensures |r| == |posts|
    ensures forall i :: 0 <= i < |posts| && posts[i].id != postId ==> r[i] == posts[i]
    ensures forall i :: 0 <= i < |posts| && posts[i].id == postId ==>
      && r[i].upvotes == posts[i].upvotes + (if isUpvote then 1 else 0)
      && r[i].downvotes == posts[i].downvotes + (if isUpvote then 0 else 1)
      && r[i].(upvotes := posts[i].upvotes, downvotes := posts[i].downvotes) == posts[i]
  {
    if posts == [] then []
    else
      var head := if posts[0].id == postId then VotedOn(posts[0], isUpvote) else posts[0];
      [head] + Vote(posts[1..], postId, isUpvote)
  }

  /** An id no post carries changes nothing. */
  lemma VoteUnknownId(posts: seq<Post>, postId: string, isUpvote: bool)
    requires forall i :: 0 <= i < |posts| ==> posts[i].id != postId
    ensures Vote(posts, postId, isUpvote) == posts
  {
  }

  /** An upvote raises the displayed score of each matching post by one, a downvote lowers it by one. */
  lemma VoteMovesScore(posts: seq<Post>, postId: string, isUpvote: bool, i: int)
    requires 0 <= i < |posts| && posts[i].id == postId
    ensures Score(Vote(posts, postId, isUpvote)[i]) == Score(posts[i]) + (if isUpvote then 1 else -1)
  {
  }

  /** Voting n times in a row. */
  function VoteTimes(posts: seq<Post>, postId: string, isUpvote: bool, n: nat): seq<Post>
  {
    if n == 0 then posts else Vote(VoteTimes(posts, postId, isUpvote, n - 1), postId, isUpvote)
  }

  /** n upvotes add exactly n to each matching post's upvotes and leave its
      downvotes alone (and symmetrically for downvotes). */
  lemma {:induction false} VoteTimesCounts(posts: seq<Post>, postId: string, isUpvote: bool, n: nat, i: int)
    requires 0 <= i < |posts|
    ensures |VoteTimes(posts, postId, isUpvote, n)| == |posts|
    ensures var p := VoteTimes(posts, postId, isUpvote, n)[i];
      if posts[i].id == postId then
        && p.upvotes == posts[i].upvotes + (if isUpvote then n else 0)
        && p.downvotes == posts[i].downvotes + (if isUpvote then 0 else n)
        && p.(upvotes := posts[i].upvotes, downvotes := posts[i].downvotes) == posts[i]
      else p == posts[i]
  {
    if n > 0 {
      var prev := VoteTimes(posts, postId, isUpvote, n - 1);
      VoteTimesCounts(posts, postId, isUpvote, n - 1, i);
      assert prev[i].id == posts[i].id;
      assert VoteTimes(posts, postId, isUpvote, n) == Vote(prev, postId, isUpvote);
    }
  }

  // ---------------------------------------------------------------- creating posts

  /** handleCreatePost: without a current user nothing happens; otherwise a new
      post with no votes and no comments is put in FRONT of the list.  Title and
      content are not checked. */
  function CreatePost(user: Option<User>, posts: seq<Post>, id: string, title: string,
                      content: string, category: string, now: int): (r: seq<Post>)
    ensures user.None? ==> r == posts
    ensures user.Some? ==> |r| == |posts| + 1 && r[1..] == posts
    ensures user.Some? ==>
      && r[0].id == id && r[0].title == title && r[0].content == content
      && r[0].author == user.value && r[0].category == category
      && r[0].upvotes == 0 && r[0].downvotes == 0 && r[0].comments == [] && r[0].createdAt == now
  {
    match user
    case None => posts
    case Some(u) => [Post(id, title, content, u, category, 0, 0, [], now)] + posts
  }

  /** Voting on an older post commutes with creating a post under a different id. */
  lemma VoteCommutesWithCreate(user: Option<User>, posts: seq<Post>, id: string, title: string,
                               content: string, category: string, now: int,
                               postId: string, isUpvote: bool)
    requires postId != id
    ensures Vote(CreatePost(user, posts, id, title, content, category, now), postId, isUpvote)
         == CreatePost(user, Vote(posts, postId, isUpvote), id, title, content, category, now)
  {
  }

  /** Ids are timestamps, so a new post may share its id with an older one; a vote
      on the new post's id then counts for the older post as well. */
  lemma IdCollisionVotesBoth(u: User, posts: seq<Post>, id: string, title: string,
                             content: string, category: string, now: int, k: int)
    requires 0 <= k < |posts| && posts[k].id == id
    ensures var r := Vote(CreatePost(Some(u), posts, id, title, content, category, now), id, true);
      r[0].upvotes == 1 && r[k + 1].upvotes == posts[k].upvotes + 1
  {
  }

  /** Login performs no credential check: after logging in under ANY name, creating a post succeeds
      and the new post is authored by that name. */
  lemma LoginThenCreate(s: AppState, username: string, id: string, title: string,
                        content: string, category: string, now: int)
    ensures var r := CreatePost(Login(s, username).currentUser, s.posts, id, title, content, category, now);
      |r| == |s.posts| + 1 && r[0].author.username == username
  {
  }

  /** handleCreatePost itself accepts an empty title and an empty content. */
  lemma CreatePostDoesNotValidate(u: User, posts: seq<Post>, id: string, category: string, now: int)
    ensures var r := CreatePost(Some(u), posts, id, "", "", category, now);
      |r| == |posts| + 1 && r[0].title == "" && r[0].content == ""
  {
  }

  // ---------------------------------------------------------------- comments

  function AppendComment(posts: seq<Post>, postId: string, c: Comment): (r: seq<Post>)
    ensures |r| == |posts|
    ensures forall i :: 0 <= i < |posts| ==>
      r[i] == if posts[i].id == postId then posts[i].(comments := posts[i].comments + [c]) else posts[i]
  {
    if posts == [] then []
    else
      var head := if posts[0].id == postId then posts[0].(comments := posts[0].comments + [c]) else posts[0];
      [head] + AppendComment(posts[1..], postId, c)
  }

  /** handleAddComment: without a current user nothing happens; otherwise every
      post whose id equals postId gets one new comment, with no votes and the
      current user as author, at the END of its comments.  Earlier comments, the
      other fields and all other posts are untouched. */
  function AddComment(user: Option<User>, posts: seq<Post>, postId: string, commentId: string,
                      content: string, now: int): (r: seq<Post>)
    ensures user.None? ==> r == posts
    ensures |r| == |posts|
    ensures forall i :: 0 <= i < |posts| && (user.None? || posts[i].id != postId) ==> r[i] == posts[i]
    ensures user.Some? ==> forall i :: 0 <= i < |posts| && posts[i].id == postId ==>
      && |r[i].comments| == |posts[i].comments| + 1
      && r[i].comments[..|posts[i].comments|] == posts[i].comments
      && r[i].comments[|posts[i].comments|] == Comment(commentId, content, user.value, 0, 0, now)
      && r[i].(comments := posts[i].comments) == posts[i]
  {
    match user
    case None => posts
    case Some(u) =>
      var r := AppendComment(posts, postId, Comment(commentId, content, u, 0, 0, now));
      assert forall i :: 0 <= i < |posts| && posts[i].id == postId ==>
        r[i].comments[..|posts[i].comments|] == posts[i].comments;
      r
  }

  /** Comments on an id no post carries leave every post as it was. */
  lemma AddCommentUnknownId(user: Option<User>, posts: seq<Post>, postId: string, commentId: string,
                            content: string, now: int)
    requires forall i :: 0 <= i < |posts| ==> posts[i].id != postId
    ensures AddComment(user, posts, postId, commentId, content, now) == posts
  {
  }

  // ---------------------------------------------------------------- the create-post form

  /** The "Post" button is disabled while the title or the content is empty. */
  predicate SubmitEnabled(s: AppState)
  {
    s.newPostTitle != "" && s.newPostContent != ""
  }

  /** handleCreatePostSubmit: create the post from the form, close the modal and
      reset the form, the category to the first category's name. */
  function CreatePostSubmit(s: AppState, id: string, now: int): (r: AppState)
    requires |s.categories| > 0
    ensures r.posts == CreatePost(s.currentUser, s.posts, id, s.newPostTitle, s.newPostContent,
                                  s.newPostCategory, now)
    ensures !r.showCreatePostModal && r.newPostTitle == "" && r.newPostContent == ""
    ensures r.newPostCategory == s.categories[0].name
    ensures r.currentUser == s.currentUser && r.categories == s.categories
  {
    s.(posts := CreatePost(s.currentUser, s.posts, id, s.newPostTitle, s.newPostContent, s.newPostCategory, now),
       showCreatePostModal := false,
       newPostTitle := "", newPostContent := "",
       newPostCategory := s.categories[0].name)
  }

  /** A click on "Post": the handler runs only when the button is enabled. */
  function ClickPost(s: AppState, id: string, now: int): (r: AppState)
    requires |s.categories| > 0
    ensures !SubmitEnabled(s) ==> r == s
    ensures SubmitEnabled(s) ==> r == CreatePostSubmit(s, id, now)
  {
    if SubmitEnabled(s) then CreatePostSubmit(s, id, now) else s
  }

  /** Since the button is the only guard, every post created through the form is filled in. */
  lemma ClickPostKeepsInv(s: AppState, id: string, now: int)
    requires Inv(s)
    ensures Inv(ClickPost(s, id, now))
  {
  }

  /** Voting and commenting keep every post filled in. */
  lemma VoteAndCommentKeepInv(s: AppState, postId: string, isUpvote: bool, commentId: string,
                              content: string, now: int)
    requires Inv(s)
    ensures Inv(s.(posts := Vote(s.posts, postId, isUpvote)))
    ensures Inv(s.(posts := AddComment(s.currentUser, s.posts, postId, commentId, content, now)))
  {
  }
}
