/**
 * The one-off script that gives every uncategorised blog post a category: the
 * post's title is looked up in the title table, and a post whose title has no
 * entry gets the default category. The posts are saved only if one changed.
 * Loading and saving the file, and the summary printed at the end, are not modelled.
 */
module Backfill {
  import opened Wrappers
  import opened Json
  import Seqs
  import Categories
  import Blog

  /** `!post.category`: no category, or the empty one. */
  predicate NeedsCategory(p: Blog.Post) {
    p.category.None? || p.category.value == ""
  }

  /** The category an uncategorised post is given. */
  function CategoryFor(title: string): (c: string)
    ensures c in Categories.CategoryNames
    ensures title in Categories.TitleMappings ==> c == Categories.TitleMappings[title]
    ensures title !in Categories.TitleMappings ==> c == Categories.DefaultCategory
  {
    Categories.MappedCategoriesAreDefined();
    if title in Categories.TitleMappings then Categories.TitleMappings[title] else Categories.DefaultCategory
  }

  /** One post after the script has looked at it. */
  function Categorised(p: Blog.Post): (q: Blog.Post)
    ensures !NeedsCategory(q)
    ensures !NeedsCategory(p) ==> q == p
    ensures q.(category := p.category) == p
    ensures NeedsCategory(p) ==> q.category == Some(CategoryFor(p.title))
  {
    if NeedsCategory(p) then p.(category := Some(CategoryFor(p.title))) else p
  }

  /** The whole list after the script, post by post. */
  function Backfilled(posts: seq<Blog.Post>): (r: seq<Blog.Post>)
    ensures |r| == |posts|
    ensures forall i :: 0 <= i < |posts| ==> r[i] == Categorised(posts[i])
  {
    seq(|posts|, i requires 0 <= i < |posts| => Categorised(posts[i]))
  }

  /**
   * The `forEach` loop: fills in categories in place and counts the updates;
   * the file is written only when the count is positive.
   */
  method Run(posts: seq<Blog.Post>) returns (result: seq<Blog.Post>, updatedCount: nat, saved: bool)
    ensures result == Backfilled(posts)
    ensures updatedCount == Seqs.Count(posts, NeedsCategory)
    ensures saved <==> updatedCount > 0
    ensures forall i :: 0 <= i < |result| ==> !NeedsCategory(result[i])
  {
    result := posts;
    updatedCount := 0;
    var i := 0;
    while i < |posts|
      invariant 0 <= i <= |posts|
      invariant |result| == |posts|
      invariant forall j :: 0 <= j < i ==> result[j] == Categorised(posts[j])
      invariant forall j :: i <= j < |posts| ==> result[j] == posts[j]
      invariant updatedCount == Seqs.Count(posts[..i], NeedsCategory)
    {
      Seqs.CountAppend(posts[..i], [posts[i]], NeedsCategory);
      assert posts[..i + 1] == posts[..i] + [posts[i]];
      if NeedsCategory(result[i]) {
        result := result[i := Categorised(result[i])];
        updatedCount := updatedCount + 1;
      }
      i := i + 1;
    }
    assert posts[..i] == posts;
    saved := updatedCount > 0;
  }

  /** After one run no post needs a category, so a second run updates nothing and saves nothing. */
  lemma SecondRunUpdatesNothing(posts: seq<Blog.Post>)
    ensures Backfilled(Backfilled(posts)) == Backfilled(posts)
    ensures Seqs.Count(Backfilled(posts), NeedsCategory) == 0
  {
    Seqs.CountZero(Backfilled(posts), NeedsCategory);
  }

  /** The run changes nothing but the categories, and only those of posts that had none. */
  lemma OnlyMissingCategoriesChange(posts: seq<Blog.Post>, i: nat)
    requires i < |posts|
    ensures Backfilled(posts)[i].(category := posts[i].category) == posts[i]
    ensures posts[i].category != Backfilled(posts)[i].category <==> NeedsCategory(posts[i])
  {
  }

  // ---------------------------------------------------------------------
  // The title lookup as written
  // ---------------------------------------------------------------------

  /** What `categoryMappings[title]` reads on the object literal: an own entry, an inherited member, or `undefined`. */
  datatype Lookup = Own(key: string) | Inherited | Missing

  function LookupTitle(title: string): (l: Lookup)
    ensures l.Own? <==> title in Categories.TitleMappings
    ensures l.Inherited? <==> title !in Categories.TitleMappings && title in ObjectPrototypeMembers
  {
    if title in Categories.TitleMappings then Own(Categories.TitleMappings[title])
    else if title in ObjectPrototypeMembers then Inherited
    else Missing
  }

  /**
   * The loop as add-categories.js writes it. For a title that names an
   * Object.prototype member the lookup is truthy, the post's category becomes that
   * member, and `categories[post.category].name` then throws: the script stops
   * before saving (`None`).
   */
  function BackfillAsWritten(posts: seq<Blog.Post>): Option<seq<Blog.Post>> {
    if |posts| == 0 then Some([])
    else if NeedsCategory(posts[0]) && LookupTitle(posts[0].title).Inherited? then None
    else
      match BackfillAsWritten(posts[1..])
      case None => None
      case Some(rest) => Some([Categorised(posts[0])] + rest)
  }

  /** Without inherited names among the uncategorised titles, the script as written does what is intended. */
  lemma {:induction false} AsWrittenAgrees(posts: seq<Blog.Post>)
    requires forall i :: 0 <= i < |posts| && NeedsCategory(posts[i]) ==> posts[i].title !in ObjectPrototypeMembers
    ensures BackfillAsWritten(posts) == Some(Backfilled(posts))
  {
    if |posts| > 0 {
      var rest := posts[1..];
      assert forall i :: 0 <= i < |rest| && NeedsCategory(rest[i]) ==> rest[i].title !in ObjectPrototypeMembers by {
        forall i | 0 <= i < |rest| && NeedsCategory(rest[i]) ensures rest[i].title !in ObjectPrototypeMembers {
          assert rest[i] == posts[i + 1];
        }
      }
      AsWrittenAgrees(rest);
      assert Backfilled(posts) == [Categorised(posts[0])] + Backfilled(rest);
    }
  }

  /** An uncategorised post titled "constructor" stops the script as written; the intended run files it under the default. */
  lemma ConstructorTitleStopsScript(p: Blog.Post)
    requires p.title == "constructor" && p.category.None?
    ensures BackfillAsWritten([p]).None?
    ensures Backfilled([p])[0].category == Some(Categories.DefaultCategory)
  {
    assert "constructor" !in Categories.TitleMappings;
  }
}
