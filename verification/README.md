# Forum and messenger state, modelled in Dafny

This project models the three pieces of this social-media demo repository that
hold state-transition logic:

- **The forum store of `src/App.tsx`** (`forum.dfy`, module `Forum`): a list of
  posts, an optional current user and the "create post" form.  The React
  handlers `handleLogin`, `handleVote`, `handleCreatePost`, `handleAddComment`
  and `handleCreatePostSubmit` replace whole values, so each is a function from
  the old value to the new one.  Post and comment ids (`Date.now()`) and
  timestamps (`new Date()`) are parameters.  Ids may collide, and the model keeps
  the source's behaviour of updating *every* post with a matching id.
- **The messenger session of `app.py`** (`messenger.dfy`, module `Messenger`):
  the Streamlit session state, updated in place, as a class `Session` with three
  fields (messages, groups, current group).  A key the session does not hold yet
  is `None`.  Message keys `user_n` / `image_n` are a (kind, number) pair and
  message content is opaque.
- **The comment thread of `src/components/CommentSection.tsx`**
  (`comment_section.dfy`, module `CommentSection`): the `expandedReplies` record
  as a `map<string, bool>`, and `renderComment` as a recursive function that
  returns the cards it draws, in drawing order, with their level, indent,
  border, score and replies button.

`wrappers.dfy` holds the `Option` type the three modules share.

Behaviour of the code worth noting, all of it kept by the model:
- `handleCreatePost` puts a new post at the **front** of the list.  It does not
  append it.
- `handleCreatePost` does not reject an empty title or content.  The only guard
  is the disabled "Post" button (`SubmitEnabled`, `ClickPost`).
- Posts record the category **name** chosen in the form, not a category id.
- `handleLogin` checks no credentials: any username logs in with id `"2"`.
- Voting or commenting on an unknown id is a silent no-op, not an error.

## Model

| member | source | states |
|---|---|---|
| `Forum.InitialState` | src/App.tsx:48-91 | No user and a closed, empty form at start. The form's category is the first of the three categories. The one seed post has score 10. Every post is filled in. |
| `Forum.Login` | src/App.tsx:93-99 | Any username becomes the current user, with id "2" and the generic avatar. Nothing else in the state changes. |
| `Forum.Vote` | src/App.tsx:101-111 | Length and order are kept. Every post with the id gets exactly one more upvote (or downvote), and its other count and fields are unchanged. Every other post is identical. |
| `Forum.VoteUnknownId` | src/App.tsx:102-111 | A vote on an id no post carries changes nothing. |
| `Forum.VoteMovesScore` | src/App.tsx:251 | An upvote raises a matching post's displayed score `upvotes - downvotes` by one. A downvote lowers it by one. |
| `Forum.VoteTimesCounts` | src/App.tsx:101-111 | n upvotes in a row add exactly n to a matching post's upvotes and leave its downvotes alone. Downvotes behave the same way. Non-matching posts are unchanged. |
| `Forum.CreatePost` | src/App.tsx:114-130 | With no user, the list is unchanged. With a user, exactly one new post is at index 0: the given id, title, content, category name and time, the user as author, no votes and no comments. The old posts follow in their order. |
| `Forum.VoteCommutesWithCreate` | src/App.tsx:101-130 | A vote on another id gives the same list whether it happens before or after a post is created. |
| `Forum.IdCollisionVotesBoth` | src/App.tsx:117-129 | If a new post reuses an older post's id, one vote on that id counts for both posts. |
| `Forum.LoginThenCreate` | src/App.tsx:93-130 | After login under any name, creating a post succeeds and the new post is authored by that name. |
| `Forum.CreatePostDoesNotValidate` | src/App.tsx:114-130 | The handler adds a post even when its title and content are empty. |
| `Forum.AddComment` | src/App.tsx:132-154 | With no user, nothing changes. With a user, each post with the id gets one comment at the end of its comments: the given id, content and time, the user as author, no votes. Earlier comments, the post's other fields and all other posts are unchanged. |
| `Forum.AddCommentUnknownId` | src/App.tsx:135-153 | A comment on an id no post carries changes nothing. |
| `Forum.CreatePostSubmit` | src/App.tsx:156-162 | The posts are those `CreatePost` gives for the form's values. The modal is closed, title and content are reset to empty, and the category is reset to the first category's name. User and categories are kept. |
| `Forum.SubmitEnabled` | src/App.tsx:346 | No `ensures`: it is the button's enabling condition (title and content both non-empty). `Forum.ClickPost` and `Forum.ClickPostKeepsInv` state what it guards. |
| `Forum.ClickPost` | src/App.tsx:343-347 | A click on a disabled button (empty title or content) changes nothing. Otherwise it is `CreatePostSubmit`. |
| `Forum.ClickPostKeepsInv` | src/App.tsx:346 | Because the button is the only guard, a click keeps every post's title and content non-empty. |
| `Forum.VoteAndCommentKeepInv` | src/App.tsx:101-154 | Voting and commenting keep every post's title and content non-empty. |
| `Messenger.InGroup` | app.py:73-74 | The shown messages are at most as many as the list, and a message is shown exactly when it is in the list and its group is the given group. |
| `Messenger.InGroupKeepsOrder` | app.py:73-74 | Shown messages keep list order: their key numbers strictly increase. |
| `Messenger.InGroupAppend` | app.py:93-98 | A message appended to a group is shown last in that group, after exactly what was shown before. |
| `Messenger.Outgoing` | app.py:90-111 | One send appends the text (if any) first, then the image (if the upload decodes). Each is a user message in the current group, and each key number is the message's own position. So the image's number is one more than the text's. An upload that does not decode adds no image. |
| `Messenger.InGroupAppendAll` | app.py:73-74 | Messages appended to a group are shown after exactly the messages that group showed before, in order. |
| `Messenger.SendKeepsKeys` | app.py:97 | After a send, every message's key number is still its position in the list. |
| `Messenger.Session.constructor` | app.py:43-49 | A new session holds none of the three keys. |
| `Messenger.Session.Initialize` | app.py:44-49 | Each key is set to its default (`[]`, `['General','Work','Friends']`, `'General'`) only when absent. Present keys keep their values, so a rerun changes nothing. |
| `Messenger.Session.SelectGroup` | app.py:58-60 | Pressing a group's button makes it current. Messages and groups are unchanged, and with no group pressed nothing changes. |
| `Messenger.Session.CreateGroup` | app.py:63-66 | A non-empty name not yet a group is appended and made current. An empty or existing name changes nothing, so groups stay duplicate-free. |
| `Messenger.Session.DisplayedMessages` | app.py:72-80 | The displayed messages are `InGroup` of the list for the current group. |
| `Messenger.Session.Send` | app.py:89-111 | The message list becomes the old list followed by `Outgoing`. The list is append-only. Groups and the current group are unchanged. `failed` holds exactly when an upload does not decode: `Image.open` then raises after the text was appended. |
| `Messenger.Session.Run` | app.py:43-113 | One script run keeps the session valid and only ever extends messages and groups. A group is created exactly when the name is non-empty and new; the run then shows nothing, makes it current and reruns. Otherwise what is shown is a prefix of the current group's view, and all of it when nothing was sent. An upload that does not decode stops the run without a rerun. |
| `CommentSection.ToggleReplies` | src/components/CommentSection.tsx:41-46 | The toggled id's flag becomes the negation of its old value, with an absent key read as false. Every other entry is kept. |
| `CommentSection.ToggleTwice` | src/components/CommentSection.tsx:41-46 | Toggling an id twice restores every comment's expanded state. |
| `CommentSection.RowOf` | src/components/CommentSection.tsx:56-129 | The card indent is `2 * level` rem. The left border is drawn exactly when `level > 0`. The score is `upvotes - downvotes`. The replies button exists exactly when there are replies and shows their count. It reads "reply" when there is one and "replies" otherwise. |
| `CommentSection.RenderComment` | src/components/CommentSection.tsx:48-145 | A comment's own card comes first. An expanded comment draws exactly one card more than its replies' rendering one level deeper; a collapsed one draws only its card. With `ReplyBlock` and `SiblingBlock`, the rest of an expanded comment's cards are its replies' whole renderings in order and nothing else. `RenderCommentLevels`, `RepliesShown`, `GrandchildShown`, `GrandchildHidden` and `ToggleShowsOrHidesReplies` describe the rest. |
| `CommentSection.RenderComments` | src/components/CommentSection.tsx:140 | Siblings draw at least one card each, and no siblings draw no cards. `SiblingBlock`, `RenderCommentsSplit`, `RenderCommentsLevels` and `RenderCommentsOwnLevel` describe the order and levels. |
| `CommentSection.SiblingBlock` | src/components/CommentSection.tsx:140 | The first i siblings' rendering followed by sibling i's whole rendering is the first i + 1 siblings' rendering, and that is a prefix of all the siblings' rendering. So the siblings' whole renderings tile the rendering end to end, in order, with nothing between or after them. |
| `CommentSection.RenderCommentsAppend` | src/components/CommentSection.tsx:140 | Drawing two lists of siblings one after the other gives the cards of the first list followed by the cards of the second. |
| `CommentSection.RenderCommentsSplit` | src/components/CommentSection.tsx:140 | Siblings are drawn as whole renderings one after another: the cards of the first i siblings come before the cards of the rest. |
| `CommentSection.ReplyBlock` | src/components/CommentSection.tsx:133-141 | For an expanded comment, each reply's whole recursive rendering, one level deeper, is one contiguous block of the comment's cards. It starts right after the comment's card and the blocks of the earlier replies, so the blocks follow reply order. |
| `CommentSection.ReplyCardsShown` | src/components/CommentSection.tsx:133-141 | For an expanded comment, every card drawn for one of its replies, at any depth, is also a card of the comment's rendering. |
| `CommentSection.GrandchildShown` | src/components/CommentSection.tsx:140 | A reply of a reply is drawn at level + 2 when both the comment and the reply are expanded. A collapsed comment draws only its card (`RepliesShown`). For a collapsed reply, see `GrandchildHidden`. |
| `CommentSection.GrandchildHidden` | src/components/CommentSection.tsx:133-141 | When a comment is expanded and its reply is collapsed, that reply's block is its own card alone. The next reply's block, or the end of the rendering, follows right after it, so none of the reply's replies is drawn. |
| `CommentSection.RenderSection` | src/components/CommentSection.tsx:148-153 | The section draws at least one card per top-level comment. `SectionBlock` and `SectionTopLevel` describe its contents. |
| `CommentSection.SectionBlock` | src/components/CommentSection.tsx:148-153 | The section is each top-level comment's whole rendering at level 0, laid end to end in order. The first i comments' section followed by comment i's rendering is the first i + 1 comments' section, and that is a prefix of the whole section. |
| `CommentSection.RenderCommentLevels` | src/components/CommentSection.tsx:48-145 | A comment's own card comes first, at its level. Every card drawn beneath it is at least one level deeper. |
| `CommentSection.RenderCommentsLevels` | src/components/CommentSection.tsx:140 | Every card drawn for siblings at a level is at that level or deeper. |
| `CommentSection.RenderCommentsOwnLevel` | src/components/CommentSection.tsx:140 | Among the cards drawn for siblings at a level, those at that level are exactly the siblings' own cards, in order. |
| `CommentSection.RepliesShown` | src/components/CommentSection.tsx:133-141 | If the comment is expanded and has a reply, its replies are drawn one level deeper, in order. Otherwise only its own card is drawn. |
| `CommentSection.SectionTopLevel` | src/components/CommentSection.tsx:148-153 | The top-level comments are drawn at level 0, in order, with no indent and no border. |
| `CommentSection.ToggleShowsOrHidesReplies` | src/components/CommentSection.tsx:117-142 | For a comment with replies, a toggle hides its replies if they were shown and shows them one level deeper if they were hidden. |

## Left out

- `src/components/ParticleBackground.tsx` is not part of this model. It is a canvas animation with floating point, `Math.random` and `requestAnimationFrame`.
- `Navbar.tsx`, `UserCard.tsx`, `CategoryCard.tsx`, `ThreadCard.tsx`, `CategorySidebar.tsx` and `tailwind.config.js` are not modelled. They only render or forward callbacks.
- The mock data and type declarations under `src/components/` are not modelled. They have no operations.
- Trending order, search, per-category listing and logout do not exist in the modelled files. The `/category/:id` route renders a fixed placeholder.
- Clocks: `Date.now()` ids and `new Date()` timestamps are parameters.
- Forum.AddComment: takes one comment id and one time per call. The source evaluates `Date.now()` once per matching post inside the map callback, so colliding posts could get comments with different ids.
- Forum.Vote: vote counts are unbounded naturals. JavaScript numbers are doubles that lose precision above 2^53.
- React re-rendering, routing, `framer-motion` animation and the form's per-keystroke updates are not modelled. The form's values are fields of the state.
- The comment card's vote and reply buttons only call `onUpvote`, `onDownvote` and `onReply` from the caller. That code is not part of this model.
- Streamlit page layout, `st.image`, `streamlit_chat.message` and PIL's decoding itself are not modelled. Neither is the base64 data URI of an image: image content is the raw file bytes.
- Widget values (the pressed button, the group box, the text box and the upload) are inputs to `Run`. How Streamlit keeps widget values across reruns is not modelled. Streamlit keeps a widget's value across `st.experimental_rerun()` (app.py:113), including that of the keyed text box (`key="input"`, app.py:85) and the uploader. So the source's next run sends the same message again, on every rerun. `Run`'s `rerun` flag only says this run asked for a rerun; it does not mean the send is finished.
- `st.experimental_rerun()` is modelled as ending the run (`Run` returns early after a group is created), plus a `rerun` flag.
- GrandchildShown: hiding under a collapsed reply is stated by position (`GrandchildHidden`), not as "this card is absent". Two comments with equal fields draw equal cards, so the card may still appear elsewhere.
- Messenger.Session.SelectGroup: assumes at most one pressed group button per run, which is what Streamlit reports.
- Messenger.Session.Run: states validity, growth, group creation and what is shown. The exact new message list follows from the contracts of `Send` and `Outgoing`.
- Messenger.Session.Send: whether PIL can decode an upload is an input (`Upload.decodes`), not a property of the bytes. On a failure the model records that the run stops. The error Streamlit then displays is not modelled.
- CommentSection.ToggleReplies: assumes comment ids are not names of `Object.prototype` members. For an id such as `"constructor"` or `"toString"`, the JavaScript lookup reads an inherited function, so the source treats the comment as expanded before any toggle, and the first toggle stores `false`. The model reads such an absent id as false.
