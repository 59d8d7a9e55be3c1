/**
 * The comment thread of src/components/CommentSection.tsx: which comments are
 * expanded (the expandedReplies record) and how the reply tree is laid out.
 * Rendering is modelled as the flat list of rows it draws, in drawing order;
 * each row keeps the values the markup derives from the comment and its level.
 */
module CommentSection {
  import opened Wrappers

  datatype Author = Author(username: string, avatar: string, level: int)

  datatype Comment = Comment(
    id: string,
    content: string,
    author: Author,
    upvotes: int,
    downvotes: int,
    replies: seq<Comment>,
    createdAt: int,
    isOP: bool)

  /** expandedReplies: comment id to flag; an id that is not a key reads as false. */
  type Expansion = map<string, bool>

  predicate IsExpanded(ex: Expansion, id: string)
  {
    id in ex && ex[id]
  }

  /** toggleReplies: the entry for id becomes the negation of its old truth value;
      every other entry is kept. */
  function ToggleReplies(ex: Expansion, id: string): (r: Expansion)
    ensures r.Keys == ex.Keys + {id}
    ensures IsExpanded(r, id) == !IsExpanded(ex, id)
    ensures forall k :: k in ex && k != id ==> r[k] == ex[k]
  {
    ex[id := !IsExpanded(ex, id)]
  }

  /** Toggling the same id twice restores every comment's expanded state. */
  lemma ToggleTwice(ex: Expansion, id: string)
    ensures forall k :: IsExpanded(ToggleReplies(ToggleReplies(ex, id), id), k) == IsExpanded(ex, k)
  {
  }

  /** The "N reply"/"N replies" button. */
  datatype RepliesButton = RepliesButton(count: nat, word: string)

  /** One drawn comment card.  `leftBorder` stands for the 2px left border and the
      extra `ml-4` class, which both appear on nested cards only. */
  datatype Row = Row(
    id: string,
    level: nat,
    marginLeftRem: nat,
    leftBorder: bool,
    score: int,
    isOP: bool,
    repliesButton: Option<RepliesButton>)

  /** The card of one comment at a nesting level. */
  function RowOf(c: Comment, level: nat): (r: Row)
    ensures r.id == c.id && r.level == level && r.isOP == c.isOP
    ensures r.marginLeftRem == 2 * level
    ensures r.leftBorder <==> level > 0
    ensures r.score == c.upvotes - c.downvotes
    ensures r.repliesButton.Some? <==> |c.replies| > 0
    ensures r.repliesButton.Some? ==>
      && r.repliesButton.value.count == |c.replies|
      && r.repliesButton.value.word == (if |c.replies| == 1 then "reply" else "replies")
  {
    var button :=
      if |c.replies| > 0 then Some(RepliesButton(|c.replies|, if |c.replies| == 1 then "reply" else "replies"))
      else None;
    Row(c.id, level, level * 2, level > 0, c.upvotes - c.downvotes, c.isOP, button)
  }

  /** renderComment: the comment's card, then, only when it is expanded and has
      replies, each reply rendered one level deeper. */
  function RenderComment(c: Comment, level: nat, ex: Expansion): (r: seq<Row>)
    ensures |r| >= 1 && r[0] == RowOf(c, level)
    ensures |r| == 1 + (if IsExpanded(ex, c.id) then |RenderComments(c.replies, level + 1, ex)| else 0)
    decreases c, 1
  {
    [RowOf(c, level)]
      + (if IsExpanded(ex, c.id) && |c.replies| > 0 then RenderComments(c.replies, level + 1, ex) else [])
  }

  /** A list of sibling comments, rendered one after the other. */
  function RenderComments(cs: seq<Comment>, level: nat, ex: Expansion): (r: seq<Row>)
    ensures |r| >= |cs|
    ensures r == [] <==> cs == []
    decreases cs, 0
  {
    if cs == [] then [] else RenderComment(cs[0], level, ex) + RenderComments(cs[1..], level, ex)
  }

  /** The whole section: the top-level comments, rendered at level 0. */
  function RenderSection(comments: seq<Comment>, ex: Expansion): (r: seq<Row>)
    ensures |r| >= |comments|
  {
    RenderComments(comments, 0, ex)
  }

  /** The cards of comments cs, all at one level, in order. */
  function RowsOf(cs: seq<Comment>, level: nat): (r: seq<Row>)
    ensures |r| == |cs|
    ensures forall i :: 0 <= i < |cs| ==> r[i] == RowOf(cs[i], level)
  {
    if cs == [] then [] else [RowOf(cs[0], level)] + RowsOf(cs[1..], level)
  }

  /** The rows drawn at exactly level l, in order. */
  function AtLevel(rows: seq<Row>, l: nat): (r: seq<Row>)
    ensures forall x :: x in r <==> x in rows && x.level == l
  {
    if rows == [] then [] else (if rows[0].level == l then [rows[0]] else []) + AtLevel(rows[1..], l)
  }

  lemma {:induction false} AtLevelAppend(a: seq<Row>, b: seq<Row>, l: nat)
    ensures AtLevel(a + b, l) == AtLevel(a, l) + AtLevel(b, l)
  {
    if a != [] {
      assert (a + b)[1..] == a[1..] + b;
      AtLevelAppend(a[1..], b, l);
    } else {
      assert a + b == b;
    }
  }

  predicate AllAtLeast(rows: seq<Row>, l: nat)
  {
    forall i :: 0 <= i < |rows| ==> rows[i].level >= l
  }

  lemma {:induction false} AtLevelOfDeeper(rows: seq<Row>, l: nat)
    requires AllAtLeast(rows, l + 1)
    ensures AtLevel(rows, l) == []
  {
    if rows != [] {
      AtLevelOfDeeper(rows[1..], l);
    }
  }

  /** Every card drawn for a comment at level l is at level l or deeper; the first
      card is the comment's own, at level l, and every later one is deeper. */
  lemma {:induction false} RenderCommentLevels(c: Comment, level: nat, ex: Expansion)
    ensures var rows := RenderComment(c, level, ex);
      rows[0] == RowOf(c, level) && AllAtLeast(rows[1..], level + 1)
    decreases c, 1
  {
    if IsExpanded(ex, c.id) && |c.replies| > 0 {
      RenderCommentsLevels(c.replies, level + 1, ex);
    }
  }

  lemma {:induction false} RenderCommentsLevels(cs: seq<Comment>, level: nat, ex: Expansion)
    ensures AllAtLeast(RenderComments(cs, level, ex), level)
    decreases cs, 0
  {
    if cs != [] {
      RenderCommentLevels(cs[0], level, ex);
      RenderCommentsLevels(cs[1..], level, ex);
    }
  }

  /** Among the cards drawn for sibling comments at level l, those at level l are
      exactly the siblings' own cards, in order: a comment at its own level is
      always drawn, whatever is expanded. */
  lemma {:induction false} RenderCommentsOwnLevel(cs: seq<Comment>, level: nat, ex: Expansion)
    ensures AtLevel(RenderComments(cs, level, ex), level) == RowsOf(cs, level)
  {
    if cs != [] {
      var rows := RenderComment(cs[0], level, ex);
      RenderCommentLevels(cs[0], level, ex);
      assert rows == [rows[0]] + rows[1..];
      AtLevelAppend([rows[0]], rows[1..], level);
      AtLevelOfDeeper(rows[1..], level);
      AtLevelAppend(rows, RenderComments(cs[1..], level, ex), level);
      RenderCommentsOwnLevel(cs[1..], level, ex);
    }
  }

  /** A comment's replies are drawn, one level deeper and in order, exactly when
      the comment is expanded and has at least one reply; otherwise only its own
      card is drawn. */
  lemma RepliesShown(c: Comment, level: nat, ex: Expansion)
    ensures IsExpanded(ex, c.id) && |c.replies| > 0 ==>
      AtLevel(RenderComment(c, level, ex), level + 1) == RowsOf(c.replies, level + 1)
    ensures !(IsExpanded(ex, c.id) && |c.replies| > 0) ==> RenderComment(c, level, ex) == [RowOf(c, level)]
  {
    if IsExpanded(ex, c.id) && |c.replies| > 0 {
      var children := RenderComments(c.replies, level + 1, ex);
      AtLevelAppend([RowOf(c, level)], children, level + 1);
      RenderCommentsOwnLevel(c.replies, level + 1, ex);
    }
  }

  /** Siblings are drawn one whole rendering after another: the cards of siblings
      a, then those of siblings b. */
  lemma {:induction false} RenderCommentsAppend(a: seq<Comment>, b: seq<Comment>, level: nat, ex: Expansion)
    ensures RenderComments(a + b, level, ex) == RenderComments(a, level, ex) + RenderComments(b, level, ex)
  {
    if a == [] {
      assert a + b == b;
    } else {
      var ab := a + b;
      assert ab != [] && ab[0] == a[0] && ab[1..] == a[1..] + b;
      RenderCommentsAppend(a[1..], b, level, ex);
      var head := RenderComment(a[0], level, ex);
      var x := RenderComments(a[1..], level, ex);
      var y := RenderComments(b, level, ex);
      assert RenderComments(ab, level, ex) == head + (x + y);
      assert RenderComments(a, level, ex) == head + x;
      Assoc(head, x, y);
    }
  }

  /** The cards of the first i siblings come before those of the rest. */
  lemma RenderCommentsSplit(cs: seq<Comment>, i: nat, level: nat, ex: Expansion)
    requires i <= |cs|
    ensures RenderComments(cs, level, ex) == RenderComments(cs[..i], level, ex) + RenderComments(cs[i..], level, ex)
  {
    assert cs == cs[..i] + cs[i..];
    RenderCommentsAppend(cs[..i], cs[i..], level, ex);
  }

  lemma Assoc(h: seq<Row>, x: seq<Row>, y: seq<Row>)
    ensures h + (x + y) == (h + x) + y
  {
  }

  lemma MiddleSlice(a: seq<Row>, b: seq<Row>, d: seq<Row>)
    ensures |a| + |b| <= |a + b + d| && (a + b + d)[|a|..|a| + |b|] == b
  {
  }

  /** The rendering of an expanded comment holds, for each reply i, that reply's
      whole rendering one level deeper (its own card and, recursively, whatever it
      shows) as one contiguous block.  The block starts right after the comment's
      card and the blocks of the earlier replies, so the blocks follow reply order. */
  lemma ReplyBlock(c: Comment, level: nat, ex: Expansion, i: nat)
    requires IsExpanded(ex, c.id) && i < |c.replies|
    ensures var rows := RenderComment(c, level, ex);
      var start := 1 + |RenderComments(c.replies[..i], level + 1, ex)|;
      var block := RenderComment(c.replies[i], level + 1, ex);
      start + |block| <= |rows| && rows[start..start + |block|] == block
  {
    var cs := c.replies;
    var own := [RowOf(c, level)];
    var before := RenderComments(cs[..i], level + 1, ex);
    var block := RenderComment(cs[i], level + 1, ex);
    var after := RenderComments(cs[i + 1..], level + 1, ex);
    RenderCommentsSplit(cs, i, level + 1, ex);
    assert cs[i..] != [] && cs[i..][0] == cs[i] && cs[i..][1..] == cs[i + 1..];
    assert RenderComments(cs[i..], level + 1, ex) == block + after;
    assert RenderComment(c, level, ex) == own + (before + (block + after));
    Assoc(own, before, block + after);
    Assoc(own + before, block, after);
    MiddleSlice(own + before, block, after);
  }

  /** A card inside a contiguous block of the rows is the row at the block's offset. */
  lemma InBlock(rows: seq<Row>, start: nat, block: seq<Row>, k: nat)
    requires start + |block| <= |rows| && rows[start..start + |block|] == block && k < |block|
    ensures start + k < |rows| && rows[start + k] == block[k]
  {
    assert rows[start..start + |block|][k] == rows[start + k];
  }

  /** Every card of an expanded comment's reply's rendering is a card of the comment's rendering. */
  lemma ReplyCardsShown(c: Comment, level: nat, ex: Expansion, i: nat)
    requires IsExpanded(ex, c.id) && i < |c.replies|
    ensures forall x :: x in RenderComment(c.replies[i], level + 1, ex) ==> x in RenderComment(c, level, ex)
  {
    var rows := RenderComment(c, level, ex);
    var block := RenderComment(c.replies[i], level + 1, ex);
    var start := 1 + |RenderComments(c.replies[..i], level + 1, ex)|;
    ReplyBlock(c, level, ex, i);
    BlockCards(rows, start, block);
  }

  lemma BlockCards(rows: seq<Row>, start: nat, block: seq<Row>)
    requires start + |block| <= |rows| && rows[start..start + |block|] == block
    ensures forall x :: x in block ==> x in rows
  {
    forall x | x in block ensures x in rows {
      var k :| 0 <= k < |block| && block[k] == x;
      InBlock(rows, start, block, k);
    }
  }

  /** A reply of a reply is drawn two levels deeper when both the comment and the
      reply are expanded. */
  lemma GrandchildShown(c: Comment, level: nat, ex: Expansion, i: nat, j: nat)
    requires i < |c.replies| && j < |c.replies[i].replies|
    requires IsExpanded(ex, c.id) && IsExpanded(ex, c.replies[i].id)
    ensures RowOf(c.replies[i].replies[j], level + 2) in RenderComment(c, level, ex)
  {
    var reply := c.replies[i];
    var card := RowOf(reply.replies[j], level + 2);
    assert card == RenderComment(reply.replies[j], level + 2, ex)[0];
    ReplyCardsShown(reply, level + 1, ex, j);
    assert card in RenderComment(reply, level + 1, ex);
    ReplyCardsShown(c, level, ex, i);
  }

  /** The cards of siblings are exactly their whole renderings laid end to end: the
      rendering of the first i siblings followed by sibling i's whole rendering is
      the rendering of the first i + 1, and that is a prefix of the rendering of all
      of them.  With `RenderComments(cs[..0], level, ex) == []` and `cs[..|cs|] == cs`,
      the blocks cover the siblings' rendering and nothing else. */
  lemma SiblingBlock(cs: seq<Comment>, i: nat, level: nat, ex: Expansion)
    requires i < |cs|
    ensures RenderComments(cs[..i], level, ex) + RenderComment(cs[i], level, ex) == RenderComments(cs[..i + 1], level, ex)
    ensures RenderComments(cs[..i + 1], level, ex) <= RenderComments(cs, level, ex)
  {
    var one := [cs[i]];
    assert cs[..i + 1] == cs[..i] + one;
    RenderCommentsAppend(cs[..i], one, level, ex);
    assert one[1..] == [];
    assert RenderComments(one, level, ex) == RenderComment(cs[i], level, ex) + [];
    assert RenderComment(cs[i], level, ex) + [] == RenderComment(cs[i], level, ex);
    RenderCommentsSplit(cs, i + 1, level, ex);
  }

  /** When a comment is expanded but its reply i is collapsed, the reply's block in
      the comment's rendering is the reply's card alone: the block of the next reply
      (or the end of the rendering) follows right after it, so none of the reply's
      own replies is drawn there. */
  lemma GrandchildHidden(c: Comment, level: nat, ex: Expansion, i: nat)
    requires i < |c.replies| && IsExpanded(ex, c.id) && !IsExpanded(ex, c.replies[i].id)
    ensures var rows := RenderComment(c, level, ex);
      var start := 1 + |RenderComments(c.replies[..i], level + 1, ex)|;
      && start < |rows| && rows[start] == RowOf(c.replies[i], level + 1)
      && start + 1 == 1 + |RenderComments(c.replies[..i + 1], level + 1, ex)|
  {
    var rows := RenderComment(c, level, ex);
    var start := 1 + |RenderComments(c.replies[..i], level + 1, ex)|;
    var block := RenderComment(c.replies[i], level + 1, ex);
    ReplyBlock(c, level, ex, i);
    SiblingBlock(c.replies, i, level + 1, ex);
    assert |block| == 1;
    InBlock(rows, start, block, 0);
  }

  /** The section is each top-level comment's whole rendering, in order and end to
      end: every card below a top-level card belongs to that comment's block. */
  lemma SectionBlock(comments: seq<Comment>, ex: Expansion, i: nat)
    requires i < |comments|
    ensures RenderSection(comments[..i], ex) + RenderComment(comments[i], 0, ex) == RenderSection(comments[..i + 1], ex)
    ensures RenderSection(comments[..i + 1], ex) <= RenderSection(comments, ex)
  {
    SiblingBlock(comments, i, 0, ex);
  }

  /** The top-level comments are drawn at level 0, in order, with no indent and no
      left border. */
  lemma SectionTopLevel(comments: seq<Comment>, ex: Expansion)
    ensures AtLevel(RenderSection(comments, ex), 0) == RowsOf(comments, 0)
    ensures forall i :: 0 <= i < |comments| ==>
      RowsOf(comments, 0)[i].marginLeftRem == 0 && !RowsOf(comments, 0)[i].leftBorder
  {
    RenderCommentsOwnLevel(comments, 0, ex);
  }

  /** Toggling a comment that has replies shows them if they were hidden and hides
      them if they were shown. */
  lemma ToggleShowsOrHidesReplies(c: Comment, level: nat, ex: Expansion)
    requires |c.replies| > 0
    ensures var rows := RenderComment(c, level, ToggleReplies(ex, c.id));
      if IsExpanded(ex, c.id) then rows == [RowOf(c, level)]
      else AtLevel(rows, level + 1) == RowsOf(c.replies, level + 1)
  {
    RepliesShown(c, level, ToggleReplies(ex, c.id));
  }
}
