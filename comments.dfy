/**
 * The comment panel of a document: mention extraction with `/@(\w+)/g`, the
 * activity-log summary, and the add / edit / delete handlers over the
 * `commentaires` and `activites` collections.
 */
module Comments {
  import opened Wrappers
  import opened Strings
  import Collections

  // ---------------------------------------------------------------------------
  // Mentions
  // ---------------------------------------------------------------------------

  /** `\w`: an ASCII letter, digit or underscore. */
  predicate IsWordChar(c: char)
  {
    ('a' <= c <= 'z') || ('A' <= c <= 'Z') || ('0' <= c <= '9') || c == '_'
  }

  /** The end of the longest run of word characters starting at `j` (what greedy `\w+` stops at). */
  function WordRunEnd(s: string, j: nat): (e: nat)
    requires j <= |s|
    ensures j <= e <= |s|
    ensures forall k :: j <= k < e ==> IsWordChar(s[k])
    ensures e == |s| || !IsWordChar(s[e])
    decreases |s| - j
  {
    if j < |s| && IsWordChar(s[j]) then WordRunEnd(s, j + 1) else j
  }

  /** `@(\w+)` can match at position `i`. */
  predicate MentionAt(s: string, i: nat)
  {
    i + 1 < |s| && s[i] == '@' && IsWordChar(s[i + 1])
  }

  /** The name a match at `i` captures: the longest word run after the `@`. */
  function MentionName(s: string, i: nat): (m: string)
    requires MentionAt(s, i)
    ensures m != [] && forall k :: 0 <= k < |m| ==> IsWordChar(m[k])
  {
    s[i + 1..WordRunEnd(s, i + 1)]
  }

  /** `mentionRegex.exec(s)` with `lastIndex == from`: the position of the leftmost match at or after `from`. */
  function NextMention(s: string, from: nat): (r: Option<nat>)
    ensures r.Some? ==> from <= r.value && MentionAt(s, r.value)
    ensures r.Some? ==> forall k :: from <= k < r.value ==> !MentionAt(s, k)
    ensures r.None? ==> forall k :: from <= k ==> !MentionAt(s, k)
    decreases |s| - from
  {
    if from + 1 >= |s| then None
    else if MentionAt(s, from) then Some(from)
    else NextMention(s, from + 1)
  }

  /**
   * The reference list: scanning every position from `i` on, the name after
   * each `@` that is followed by a word character, left to right.
   */
  function MentionsFrom(s: string, i: nat): seq<string>
    decreases |s| - i
  {
    if i >= |s| then []
    else (if MentionAt(s, i) then [MentionName(s, i)] else []) + MentionsFrom(s, i + 1)
  }

  function Mentions(s: string): seq<string>
  {
    MentionsFrom(s, 0)
  }

  /** Positions where no match can start contribute nothing. */
  lemma {:induction false} MentionsSkipGap(s: string, a: nat, b: nat)
    requires a <= b
    requires forall k :: a <= k < b ==> !MentionAt(s, k)
    ensures MentionsFrom(s, a) == MentionsFrom(s, b)
    decreases b - a
  {
    if a < b && a < |s| {
      MentionsSkipGap(s, a + 1, b);
    } else if a < b {
      assert MentionsFrom(s, a) == [] && MentionsFrom(s, b) == [];
    }
  }

  /** A match consumes its word run, inside which no other match can start. */
  lemma MentionsAtMatch(s: string, i: nat)
    requires MentionAt(s, i)
    ensures MentionsFrom(s, i) == [MentionName(s, i)] + MentionsFrom(s, WordRunEnd(s, i + 1))
  {
    var e := WordRunEnd(s, i + 1);
    forall k | i + 1 <= k < e ensures !MentionAt(s, k) {
      assert IsWordChar(s[k]);
    }
    MentionsSkipGap(s, i + 1, e);
  }

  /**
   * The extraction loop of `handleAddComment`: `exec` until it fails, pushing
   * each captured name.
   */
  method ExtractMentions(text: string) returns (mentions: seq<string>)
    ensures mentions == Mentions(text)
  {
    mentions := [];
    var lastIndex: nat := 0;
    var found := NextMention(text, lastIndex);
    while found.Some?
      invariant lastIndex <= |text|
      invariant found == NextMention(text, lastIndex)
      invariant mentions + MentionsFrom(text, lastIndex) == Mentions(text)
      decreases |text| - lastIndex
    {
      var start := found.value;
      var end := WordRunEnd(text, start + 1);
      MentionsNext(text, lastIndex, start);
      AppendAssoc(mentions, [text[start + 1..end]], MentionsFrom(text, end));
      mentions := mentions + [text[start + 1..end]];
      lastIndex := end;
      found := NextMention(text, lastIndex);
    }
    MentionsSkipGap(text, lastIndex, |text|);
  }

  /** The match `exec` finds from `from` is the next entry of the reference list. */
  lemma MentionsNext(s: string, from: nat, start: nat)
    requires NextMention(s, from) == Some(start)
    ensures MentionsFrom(s, from) == [s[start + 1..WordRunEnd(s, start + 1)]] + MentionsFrom(s, WordRunEnd(s, start + 1))
  {
    MentionsSkipGap(s, from, start);
    MentionsAtMatch(s, start);
  }

  lemma AppendAssoc<T>(a: seq<T>, b: seq<T>, c: seq<T>)
    ensures (a + b) + c == a + (b + c)
  {
  }

  /** Every mention is a non-empty run of word characters. */
  lemma {:induction false} MentionsAreWords(s: string, i: nat)
    ensures forall m :: m in MentionsFrom(s, i) ==>
      m != [] && forall k :: 0 <= k < |m| ==> IsWordChar(m[k])
    decreases |s| - i
  {
    if i < |s| {
      MentionsAreWords(s, i + 1);
    }
  }

  /** The list is empty exactly when no `@` is followed by a word character. */
  lemma NoMentionsIff(s: string)
    ensures Mentions(s) == [] <==> forall k :: 0 <= k < |s| ==> !MentionAt(s, k)
  {
    if forall k :: 0 <= k < |s| ==> !MentionAt(s, k) {
      MentionsSkipGap(s, 0, |s|);
    } else {
      var k :| 0 <= k < |s| && MentionAt(s, k);
      NonEmptyFrom(s, 0, k);
    }
  }

  lemma {:induction false} NonEmptyFrom(s: string, i: nat, k: nat)
    requires i <= k && MentionAt(s, k)
    ensures MentionsFrom(s, i) != []
    decreases k - i
  {
    if i < k {
      NonEmptyFrom(s, i + 1, k);
    }
  }

  /** A run of word characters ended by a non-word character or the end is what `\w+` takes. */
  lemma {:induction false} WordRunEndIs(s: string, j: nat, e: nat)
    requires j <= e <= |s|
    requires forall k :: j <= k < e ==> IsWordChar(s[k])
    requires e == |s| || !IsWordChar(s[e])
    ensures WordRunEnd(s, j) == e
    decreases e - j
  {
    if j < e {
      WordRunEndIs(s, j + 1, e);
    }
  }

  const TwoNames := "@ann @b_2!"

  /**
   * Example (the general fact is `MentionsAtMatch`): `"@ann @b_2!"` mentions
   * `ann` then `b_2`, each name ending where the word characters do.
   */
  lemma TwoMentions()
    ensures Mentions(TwoNames) == ["ann", "b_2"]
  {
    FirstOfTwo();
    assert TwoNames[4] == ' ';
    MentionsSkipGap(TwoNames, 4, 5);
    SecondOfTwo();
    assert MentionsFrom(TwoNames, 0) == ["ann"] + ["b_2"];
  }

  lemma FirstOfTwo()
    ensures MentionsFrom(TwoNames, 0) == ["ann"] + MentionsFrom(TwoNames, 4)
  {
    var s := TwoNames;
    assert s[0] == '@' && s[1] == 'a' && s[2] == 'n' && s[3] == 'n' && s[4] == ' ';
    WordRunEndIs(s, 1, 4);
    MentionsAtMatch(s, 0);
    assert MentionName(s, 0) == s[1..4] == "ann";
  }

  lemma SecondOfTwo()
    ensures MentionsFrom(TwoNames, 5) == ["b_2"]
  {
    var s := TwoNames;
    assert s[5] == '@' && s[6] == 'b' && s[7] == '_' && s[8] == '2' && s[9] == '!';
    assert MentionsFrom(s, 9) == [];
    WordRunEndIs(s, 6, 9);
    MentionsAtMatch(s, 5);
    assert MentionName(s, 5) == s[6..9] == "b_2";
  }

  // ---------------------------------------------------------------------------
  // Activity summary
  // ---------------------------------------------------------------------------

  const DetailsLead := "Commentaire ajouté: \""

  /** `Commentaire ajouté: "<first 30 characters><... when longer>"`. */
  function ActivityDetails(text: string): string
  {
    DetailsLead + (if |text| > 30 then text[..30] + "..." else text) + "\""
  }

  /**
   * The summary quotes the whole comment when it has at most 30 characters,
   * and otherwise its first 30 characters followed by `...`.
   */
  lemma ActivityDetailsQuote(text: string)
    ensures var d := ActivityDetails(text);
      && d[..|DetailsLead|] == DetailsLead && d[|d| - 1] == '"'
      && (|text| <= 30 ==> d[|DetailsLead|..|d| - 1] == text)
      && (|text| > 30 ==>
            |d| == |DetailsLead| + 34 &&
            d[|DetailsLead|..|DetailsLead| + 30] == text[..30] &&
            d[|DetailsLead| + 30..|d| - 1] == "...")
  {
  }

  // ---------------------------------------------------------------------------
  // The comment collection
  // ---------------------------------------------------------------------------

  /** The signed-in user, as far as the panel uses it. */
  datatype User = User(uid: string, displayName: Option<string>, email: Option<string>)

  datatype Comment = Comment(
    id: nat,
    documentId: string,
    auteurId: string,
    auteurNom: Option<string>,
    contenu: string,
    dateCreation: int,
    mentions: seq<string>,
    modifie: bool,
    dateModification: Option<int>)

  datatype Activity = Activity(
    documentId: string,
    documentNom: string,
    kind: string,
    utilisateurId: string,
    utilisateurNom: Option<string>,
    dateActivite: int,
    details: string)

  /** `x || y`: the first value unless it is absent or empty. */
  function OrElse(x: Option<string>, y: Option<string>): (r: Option<string>)
    ensures x.Some? && x.value != "" ==> r == x
    ensures !(x.Some? && x.value != "") ==> r == y
  {
    if x.Some? && x.value != "" then x else y
  }

  /** `nni || displayName || email`: the profile's NNI first, then the display name, then the e-mail. */
  function AuthorName(nni: Option<string>, user: User): Option<string>
  {
    OrElse(nni, OrElse(user.displayName, user.email))
  }

  const EditError := "Impossible de modifier le commentaire. Veuillez réessayer plus tard."

  ghost predicate IdsIncreasing(comments: seq<Comment>)
  {
    forall i, j :: 0 <= i < j < |comments| ==> comments[i].id < comments[j].id
  }

  function CommentIdIsNot(id: nat): Comment -> bool
  {
    (c: Comment) => c.id != id
  }

  /** The comment written for `text` by `user`, as `handleAddComment` stores it. */
  function NewComment(id: nat, documentId: string, text: string, user: User, nni: Option<string>,
                      now: int): Comment
  {
    Comment(id, documentId, user.uid, AuthorName(nni, user), text, now, Mentions(text), false, None)
  }

  /** The activity entry `handleAddComment` logs for it. */
  function NewActivity(documentId: string, documentNom: string, text: string, user: User,
                       nni: Option<string>, now: int): Activity
  {
    Activity(documentId, documentNom, "commentaire", user.uid, AuthorName(nni, user), now,
             ActivityDetails(text))
  }

  /** The edited comment as `saveEdit` leaves it: new text, marked modified. */
  function Edited(c: Comment, text: string, now: int): Comment
  {
    c.(contenu := text, modifie := true, dateModification := Some(now))
  }

  class Thread {
    /** The `commentaires` collection, in identifier order. */
    var comments: seq<Comment>
    /** The `activites` collection. */
    var activities: seq<Activity>
    var nextId: nat

    ghost predicate Valid()
      reads this
    {
      IdsIncreasing(comments) && forall i :: 0 <= i < |comments| ==> comments[i].id < nextId
    }

    constructor ()
      ensures Valid() && comments == [] && activities == []
    {
      comments, activities, nextId := [], [], 0;
    }

    /**
     * `handleAddComment`: blank text or no signed-in user writes nothing;
     * otherwise the comment, with its mentions and `modifie = false`, and then
     * its activity entry are added.
     */
    method AddComment(documentId: string, documentNom: string, text: string, user: Option<User>,
                      nni: Option<string>, now: int)
      requires Valid()
      modifies this
      ensures Valid()
      ensures (IsBlank(text) || user.None?) ==> unchanged(this)
      ensures !IsBlank(text) && user.Some? ==>
        && comments == old(comments) + [NewComment(old(nextId), documentId, text, user.value, nni, now)]
        && activities == old(activities) + [NewActivity(documentId, documentNom, text, user.value, nni, now)]
    {
      if Trim(text) == "" || user.None? {
        return;
      }
      var mentions := ExtractMentions(text);
      var u := user.value;
      var c := Comment(nextId, documentId, u.uid, AuthorName(nni, u), text, now, mentions, false, None);
      assert c == NewComment(nextId, documentId, text, u, nni, now);
      AppendKeepsIncreasing(comments, c, nextId);
      comments := comments + [c];
      nextId := nextId + 1;
      activities := activities + [NewActivity(documentId, documentNom, text, u, nni, now)];
    }

    /** The position of the comment with identifier `id`, if there is one. */
    method Find(id: nat) returns (k: Option<nat>)
      ensures k.Some? ==> k.value < |comments| && comments[k.value].id == id
      ensures k.None? ==> forall i :: 0 <= i < |comments| ==> comments[i].id != id
    {
      var i := 0;
      while i < |comments|
        invariant 0 <= i <= |comments|
        invariant forall m :: 0 <= m < i ==> comments[m].id != id
      {
        if comments[i].id == id {
          return Some(i);
        }
        i := i + 1;
      }
      return None;
    }

    /**
     * `saveEdit(commentId)`: blank text or no signed-in user writes nothing;
     * an unknown identifier fails the update; otherwise the text is replaced
     * and the comment marked modified. Its mentions are not recomputed.
     */
    method SaveEdit(commentId: nat, text: string, user: Option<User>, now: int) returns (r: Outcome)
      requires Valid()
      modifies this
      ensures Valid()
      ensures activities == old(activities) && nextId == old(nextId)
      ensures (IsBlank(text) || user.None?) ==> comments == old(comments)
      ensures !IsBlank(text) && user.Some? ==> comments == EditById(old(comments), commentId, text, now)
      ensures r == if !IsBlank(text) && user.Some? && !HasId(old(comments), commentId) then Fail(EditError)
                   else Pass
    {
      if Trim(text) == "" || user.None? {
        return Pass;
      }
      var k := Find(commentId);
      if k.None? {
        EditByIdMissing(comments, commentId, text, now);
        return Fail(EditError);
      }
      ReplaceIsEditById(comments, k.value, commentId, text, now);
      EditByIdKeepsIds(comments, commentId, text, now);
      var edited := comments[k.value := Edited(comments[k.value], text, now)];
      assert edited == EditById(comments, commentId, text, now);
      comments := edited;
      r := Pass;
    }

    /** `handleDeleteComment(commentId)`: with a signed-in user, the comment (if any) is removed. */
    method DeleteComment(commentId: nat, user: Option<User>)
      requires Valid()
      modifies this
      ensures Valid()
      ensures activities == old(activities)
      ensures user.None? ==> unchanged(this)
      ensures user.Some? ==> comments == Collections.Filter(old(comments), CommentIdIsNot(commentId))
    {
      if user.None? {
        return;
      }
      Collections.FilterKeepsPairwise(comments, CommentIdIsNot(commentId), (a: Comment, b: Comment) => a.id < b.id);
      comments := Collections.Filter(comments, CommentIdIsNot(commentId));
    }
  }

  lemma AppendKeepsIncreasing(comments: seq<Comment>, c: Comment, nextId: nat)
    requires IdsIncreasing(comments) && forall i :: 0 <= i < |comments| ==> comments[i].id < nextId
    requires c.id == nextId
    ensures IdsIncreasing(comments + [c])
    ensures forall i :: 0 <= i < |comments + [c]| ==> (comments + [c])[i].id < nextId + 1
  {
  }

  /** Some comment has identifier `id`. */
  ghost predicate HasId(comments: seq<Comment>, id: nat)
  {
    exists i :: 0 <= i < |comments| && comments[i].id == id
  }

  /** The comments once the one with identifier `id` (if any) is edited. */
  function EditById(comments: seq<Comment>, id: nat, text: string, now: int): seq<Comment>
  {
    seq(|comments|, i requires 0 <= i < |comments| =>
      if comments[i].id == id then Edited(comments[i], text, now) else comments[i])
  }

  /** Editing an identifier no comment has changes nothing. */
  lemma EditByIdMissing(comments: seq<Comment>, id: nat, text: string, now: int)
    requires !HasId(comments, id)
    ensures EditById(comments, id, text, now) == comments
  {
    var r := EditById(comments, id, text, now);
    forall i | 0 <= i < |comments| ensures r[i] == comments[i] {
      assert comments[i].id != id;
    }
  }

  /** With identifiers unique, editing by identifier replaces exactly the one comment at `k`. */
  lemma ReplaceIsEditById(comments: seq<Comment>, k: nat, id: nat, text: string, now: int)
    requires IdsIncreasing(comments)
    requires k < |comments| && comments[k].id == id
    ensures comments[k := Edited(comments[k], text, now)] == EditById(comments, id, text, now)
  {
    var s := comments[k := Edited(comments[k], text, now)];
    var r := EditById(comments, id, text, now);
    forall i | 0 <= i < |s| ensures s[i] == r[i] {
      if i != k {
        assert comments[i].id != id by {
          if i < k { assert comments[i].id < comments[k].id; } else { assert comments[k].id < comments[i].id; }
        }
      }
    }
  }

  /** Editing keeps every identifier where it was, so the thread stays in identifier order. */
  lemma EditByIdKeepsIds(comments: seq<Comment>, id: nat, text: string, now: int)
    ensures |EditById(comments, id, text, now)| == |comments|
    ensures forall i :: 0 <= i < |comments| ==> EditById(comments, id, text, now)[i].id == comments[i].id
    ensures IdsIncreasing(comments) ==> IdsIncreasing(EditById(comments, id, text, now))
  {
  }

  /** A stored comment's mentions are the reference list of its text. */
  lemma StoredMentions(id: nat, documentId: string, text: string, user: User, nni: Option<string>, now: int)
    ensures var c := NewComment(id, documentId, text, user, nni, now);
      && !c.modifie && c.dateModification.None? && c.contenu == text
      && c.mentions == MentionsFrom(text, 0)
      && forall m :: m in c.mentions ==> m != [] && forall k :: 0 <= k < |m| ==> IsWordChar(m[k])
  {
    MentionsAreWords(text, 0);
  }

  /** An edit keeps the author, the creation date and the mentions computed when the comment was added. */
  lemma EditKeepsMentions(c: Comment, text: string, now: int)
    ensures var e := Edited(c, text, now);
      && e.contenu == text && e.modifie && e.dateModification == Some(now)
      && e.id == c.id && e.auteurId == c.auteurId && e.dateCreation == c.dateCreation
      && e.mentions == c.mentions
  {
  }
}
