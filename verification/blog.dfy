/**
 * The blog collection and the admin handlers that change it: add, edit,
 * delete and bulk import, plus the category filter of the public blog page.
 * The in-memory array is a `seq<Post>`; each handler returns its reply and the
 * array as it is afterwards. `sanitize` is `sanitizeContent`, whose regular
 * expressions are not modelled; the clock is an `Instant` parameter.
 */
module Blog {
  import opened Wrappers
  import opened Json
  import Text
  import Seqs
  import Categories

  /** A blog post. `author` is whatever value the post was created with. */
  datatype Post = Post(
    id: int,
    title: string,
    content: string,
    date: string,
    author: JsonValue,
    category: Option<string>,
    lastModified: Option<string>)

  /** What a handler answers: `{success: true, message}`, `{success: false, error}`, or a 500 from a thrown exception. */
  datatype Reply = Ok(message: string) | Failed(error: string) | ServerError

  datatype Step = Step(reply: Reply, posts: seq<Post>)

  const TitleContentRequired: string := "Title and content are required"
  const IdTitleContentRequired: string := "Post ID, title, and content are required"
  const BlogPostNotFound: string := "Blog post not found"
  const PostIdRequired: string := "Post ID is required"
  const PostNotFound: string := "Post not found"
  const InvalidImportFormat: string := "Invalid data format. Expected array of posts."
  const ImportFailed: string := "Failed to import posts. Please check your data format."

  predicate IsString(v: Option<JsonValue>) {
    v.Some? && v.value.JStr?
  }

  // ---------------------------------------------------------------------
  // POST /admin/add-post
  // ---------------------------------------------------------------------

  /**
   * Adds a post at the front. Missing (falsy) title or content is refused; a
   * non-string one makes `trim`/`replace` throw. The title is trimmed after the
   * emptiness test, so an all-blank title is stored as "".
   */
  function AddPost(posts: seq<Post>, title: Option<JsonValue>, content: Option<JsonValue>,
                   now: Instant, sanitize: string -> string): (r: Step)
    ensures !Truthy(title) || !Truthy(content) ==> r == Step(Failed(TitleContentRequired), posts)
    ensures r.reply.Ok? <==> Truthy(title) && Truthy(content) && IsString(title) && IsString(content)
    ensures Truthy(title) && Truthy(content) && !(IsString(title) && IsString(content)) ==> r == Step(ServerError, posts)
    ensures !r.reply.Ok? ==> r.posts == posts
    ensures r.reply.Ok? ==>
              && |r.posts| == |posts| + 1 && r.posts[1..] == posts
              && r.posts[0].id == now.ms
              && r.posts[0].title == Text.Trim(title.value.s)
              && r.posts[0].content == sanitize(content.value.s)
              && r.posts[0].date == now.iso
              && r.posts[0].author == JStr("Admin")
              && r.posts[0].category.None?
              && r.posts[0].lastModified.None?
  {
    if !Truthy(title) || !Truthy(content) then Step(Failed(TitleContentRequired), posts)
    else if !IsString(title) || !IsString(content) then Step(ServerError, posts)
    else
      var post := Post(now.ms, Text.Trim(title.value.s), sanitize(content.value.s), now.iso,
                       JStr("Admin"), None, None);
      Step(Ok("Blog post added successfully"), [post] + posts)
  }

  // ---------------------------------------------------------------------
  // POST /admin/edit-post
  // ---------------------------------------------------------------------

  /** `posts.findIndex(post => post.id === target)`; a NaN target (`None`) matches nothing. */
  function IndexOfId(posts: seq<Post>, target: Option<int>): (i: int)
    ensures -1 <= i < |posts|
    ensures i >= 0 ==> Some(posts[i].id) == target
    ensures forall j :: 0 <= j < |posts| && (i < 0 || j < i) ==> Some(posts[j].id) != target
  {
    Seqs.FindIndex(posts, (p: Post) => Some(p.id) == target)
  }

  /** The post at `i` with the edit applied: title, content and modification time; nothing else. */
  function Edited(p: Post, title: string, content: string, now: Instant, sanitize: string -> string): Post {
    p.(title := Text.Trim(title), content := sanitize(content), lastModified := Some(now.iso))
  }

  /**
   * Edits the first post whose id equals `parseInt(id)`. The edit's state change
   * is the same in both registrations of the route.
   */
  function EditPost(posts: seq<Post>, id: Option<JsonValue>, title: Option<JsonValue>, content: Option<JsonValue>,
                    now: Instant, sanitize: string -> string): (r: Step)
    ensures !(Truthy(id) && Truthy(title) && Truthy(content)) ==> r == Step(Failed(IdTitleContentRequired), posts)
    ensures Truthy(id) && Truthy(title) && Truthy(content) && IndexOfId(posts, ParseIntArg(id.value)) < 0
            ==> r == Step(Failed(BlogPostNotFound), posts)
    ensures (&& Truthy(id) && Truthy(title) && Truthy(content)
             && IndexOfId(posts, ParseIntArg(id.value)) >= 0
             && !(IsString(title) && IsString(content)))
            ==> r == Step(ServerError, posts)
    ensures !r.reply.Ok? ==> r.posts == posts
    ensures r.reply.Ok? <==> Truthy(id) && Truthy(title) && Truthy(content)
                             && IndexOfId(posts, ParseIntArg(id.value)) >= 0 && IsString(title) && IsString(content)
    ensures r.reply.Ok? ==>
              var i := IndexOfId(posts, ParseIntArg(id.value));
              && |r.posts| == |posts|
              && (forall j :: 0 <= j < |posts| && j != i ==> r.posts[j] == posts[j])
              && r.posts[i] == Edited(posts[i], title.value.s, content.value.s, now, sanitize)
  {
    if !Truthy(id) || !Truthy(title) || !Truthy(content) then Step(Failed(IdTitleContentRequired), posts)
    else
      var i := IndexOfId(posts, ParseIntArg(id.value));
      if i < 0 then Step(Failed(BlogPostNotFound), posts)
      else if !IsString(content) || !IsString(title) then Step(ServerError, posts)
      else Step(Ok("Blog post updated successfully"),
                posts[i := Edited(posts[i], title.value.s, content.value.s, now, sanitize)])
  }

  /**
   * The edit route as Express runs it: the first of the two registrations applies
   * and saves the edit, then builds its reply from `newPost`, a name that is not
   * declared in that handler; the ReferenceError turns the reply into a 500.
   */
  function EditPostAsWritten(posts: seq<Post>, id: Option<JsonValue>, title: Option<JsonValue>, content: Option<JsonValue>,
                             now: Instant, sanitize: string -> string): (r: Step)
    ensures !r.reply.Ok?
    ensures r.posts == EditPost(posts, id, title, content, now, sanitize).posts
  {
    var intended := EditPost(posts, id, title, content, now, sanitize);
    if intended.reply.Ok? then Step(ServerError, intended.posts) else intended
  }

  /** As written, a successful edit is stored but answered with a server error; the intended handler reports success. */
  lemma EditAnswersServerError(posts: seq<Post>, title: string, content: string, now: Instant, sanitize: string -> string)
    requires |posts| > 0 && posts[0].id == 7
    requires title != "" && content != ""
    ensures var asWritten := EditPostAsWritten(posts, Some(JNum(7)), Some(JStr(title)), Some(JStr(content)), now, sanitize);
            var intended := EditPost(posts, Some(JNum(7)), Some(JStr(title)), Some(JStr(content)), now, sanitize);
            && asWritten.reply == ServerError
            && intended.reply == Ok("Blog post updated successfully")
            && asWritten.posts == intended.posts
            && asWritten.posts[0].lastModified == Some(now.iso)
  {
  }

  /** The ids of a post list, in order. */
  function Ids(posts: seq<Post>): (ids: seq<int>)
    ensures |ids| == |posts|
    ensures forall i :: 0 <= i < |posts| ==> ids[i] == posts[i].id
  {
    seq(|posts|, i requires 0 <= i < |posts| => posts[i].id)
  }

  /** The first post with a given id is found at the same place in two lists with the same ids. */
  lemma IndexOfIdFollowsIds(a: seq<Post>, b: seq<Post>, target: Option<int>)
    requires Ids(a) == Ids(b)
    ensures IndexOfId(a, target) == IndexOfId(b, target)
  {
    var i, j := IndexOfId(a, target), IndexOfId(b, target);
    assert forall k :: 0 <= k < |a| ==> a[k].id == Ids(a)[k] == Ids(b)[k] == b[k].id;
    if i >= 0 && j >= 0 {
      assert !(i < j) && !(j < i);
    }
  }

  /** Editing never changes which ids the list holds or where. */
  lemma EditKeepsIds(posts: seq<Post>, id: Option<JsonValue>, title: Option<JsonValue>, content: Option<JsonValue>,
                     now: Instant, sanitize: string -> string)
    ensures Ids(EditPost(posts, id, title, content, now, sanitize).posts) == Ids(posts)
  {
  }

  /** Repeating an edit (same request, same clock) changes nothing more. */
  lemma EditIdempotent(posts: seq<Post>, id: Option<JsonValue>, title: Option<JsonValue>, content: Option<JsonValue>,
                       now: Instant, sanitize: string -> string)
    ensures var once := EditPost(posts, id, title, content, now, sanitize);
            EditPost(once.posts, id, title, content, now, sanitize) == once
  {
    var once := EditPost(posts, id, title, content, now, sanitize);
    EditKeepsIds(posts, id, title, content, now, sanitize);
    if Truthy(id) {
      IndexOfIdFollowsIds(once.posts, posts, ParseIntArg(id.value));
    }
  }

  // ---------------------------------------------------------------------
  // POST /admin/delete-post
  // ---------------------------------------------------------------------

  /** `post => post.id !== target`. */
  function IdDiffers(target: Option<int>): Post -> bool {
    (p: Post) => Some(p.id) != target
  }

  /**
   * `posts.filter(post => post.id !== target)`: every post with another id, each
   * as often as it occurs, in list order.
   */
  function WithoutId(posts: seq<Post>, target: Option<int>): (r: seq<Post>)
    ensures forall i :: 0 <= i < |r| ==> Some(r[i].id) != target && r[i] in posts
    ensures forall i :: 0 <= i < |posts| && Some(posts[i].id) != target ==> posts[i] in r
    ensures |r| == Seqs.Count(posts, IdDiffers(target))
    ensures Seqs.Subsequence(r, posts)
    ensures |r| < |posts| <==> exists i :: 0 <= i < |posts| && Some(posts[i].id) == target
    ensures |r| == |posts| ==> r == posts
  {
    Seqs.FilterShrinks(posts, IdDiffers(target));
    Seqs.Filter(posts, IdDiffers(target))
  }

  /** Removes every post whose id equals `parseInt(postId)`; reports failure when none did. */
  function DeletePost(posts: seq<Post>, postId: Option<JsonValue>): (r: Step)
    ensures !Truthy(postId) ==> r == Step(Failed(PostIdRequired), posts)
    ensures r.reply.Ok? <==> Truthy(postId) && exists i :: 0 <= i < |posts| && Some(posts[i].id) == ParseIntArg(postId.value)
    ensures !r.reply.Ok? ==> r.posts == posts
    ensures r.reply.Ok? ==> r.posts == WithoutId(posts, ParseIntArg(postId.value))
    ensures Truthy(postId) && !r.reply.Ok? ==> r.reply == Failed(PostNotFound)
  {
    if !Truthy(postId) then Step(Failed(PostIdRequired), posts)
    else
      var kept := WithoutId(posts, ParseIntArg(postId.value));
      if |kept| == |posts| then Step(Failed(PostNotFound), kept)
      else Step(Ok("Blog post deleted successfully"), kept)
  }

  /** Deleting keeps the surviving posts in their order: it works piecewise over any split of the list. */
  lemma DeleteKeepsOrder(a: seq<Post>, b: seq<Post>, target: Option<int>)
    ensures WithoutId(a + b, target) == WithoutId(a, target) + WithoutId(b, target)
  {
    Seqs.FilterAppend(a, b, IdDiffers(target));
  }

  /** A second delete of the same id finds nothing and changes nothing. */
  lemma DeleteTwiceFails(posts: seq<Post>, postId: Option<JsonValue>)
    requires DeletePost(posts, postId).reply.Ok?
    ensures var once := DeletePost(posts, postId).posts;
            DeletePost(once, postId) == Step(Failed(PostNotFound), once)
  {
  }

  /** Deleting the id of a just-added post, sent as its decimal text, restores the list, when the id was fresh. */
  lemma DeleteUndoesAdd(posts: seq<Post>, title: Option<JsonValue>, content: Option<JsonValue>,
                        now: Instant, sanitize: string -> string)
    requires AddPost(posts, title, content, now, sanitize).reply.Ok?
    requires now.ms >= 0
    requires forall i :: 0 <= i < |posts| ==> posts[i].id != now.ms
    ensures var added := AddPost(posts, title, content, now, sanitize).posts;
            DeletePost(added, Some(JStr(Text.DecimalString(now.ms)))).posts == posts
  {
    var added := AddPost(posts, title, content, now, sanitize).posts;
    var postId := JStr(Text.DecimalString(now.ms));
    var target := Some(now.ms);
    ParseIntArgOfId(now.ms);
    assert Truthy(Some(postId)) && ParseIntArg(postId) == target;
    assert added == [added[0]] + posts;
    DeleteKeepsOrder([added[0]], posts, target);
    assert WithoutId([added[0]], target) == [];
    assert WithoutId(posts, target) == posts;
    assert WithoutId(added, target) == posts;
  }

  // ---------------------------------------------------------------------
  // POST /admin/bulk-import
  // ---------------------------------------------------------------------

  /** An entry that is imported: it has a truthy title and content. Anything else is skipped. */
  predicate Importable(e: JsonValue) {
    Truthy(Prop(e, "title")) && Truthy(Prop(e, "content"))
  }

  /** An entry on which the loop throws: `null.title`, or a non-string title or content. */
  predicate Throws(e: JsonValue) {
    e == JNull || (Importable(e) && !(IsString(Prop(e, "title")) && IsString(Prop(e, "content"))))
  }

  /** The post made from the `k`-th imported entry: id `Date.now() + k`, author defaulting to "Admin". */
  function ImportedPost(e: JsonValue, k: nat, clock: nat -> Instant, sanitize: string -> string): Post {
    var author := Prop(e, "author");
    Post(clock(k).ms + k, Text.Trim(AsString(Prop(e, "title"))), sanitize(AsString(Prop(e, "content"))),
         clock(k).iso, if Truthy(author) then author.value else JStr("Admin"), None, None)
  }

  /** The state of the import loop: the array so far, `importCount`, and whether an entry threw. */
  datatype ImportRun = ImportRun(posts: seq<Post>, count: nat, threw: bool)

  /** The `for (const post of posts)` loop from entry 0 on, with `k` posts imported so far. */
  function ImportLoop(entries: seq<JsonValue>, posts: seq<Post>, k: nat,
                      clock: nat -> Instant, sanitize: string -> string): ImportRun
    decreases |entries|
  {
    if |entries| == 0 then ImportRun(posts, k, false)
    else if Throws(entries[0]) then ImportRun(posts, k, true)
    else if !Importable(entries[0]) then ImportLoop(entries[1..], posts, k, clock, sanitize)
    else ImportLoop(entries[1..], [ImportedPost(entries[0], k, clock, sanitize)] + posts, k + 1, clock, sanitize)
  }

  /** The entries that are imported, in input order. */
  function ImportableEntries(entries: seq<JsonValue>): seq<JsonValue> {
    Seqs.Filter(entries, Importable)
  }

  /** The posts made from `valid`, numbered from `k`, in input order. */
  function ImportedPosts(valid: seq<JsonValue>, k: nat, clock: nat -> Instant, sanitize: string -> string): (r: seq<Post>)
    ensures |r| == |valid|
    ensures forall i :: 0 <= i < |valid| ==> r[i] == ImportedPost(valid[i], k + i, clock, sanitize)
  {
    Seqs.MapNumbered(valid, k, (e: JsonValue, n: nat) => ImportedPost(e, n, clock, sanitize))
  }

  /** The entries after the first one do not throw when none does. */
  lemma NoThrowInRest(entries: seq<JsonValue>)
    requires |entries| > 0
    requires forall i :: 0 <= i < |entries| ==> !Throws(entries[i])
    ensures forall i :: 0 <= i < |entries[1..]| ==> !Throws(entries[1..][i])
  {
    forall i | 0 <= i < |entries[1..]| ensures !Throws(entries[1..][i]) {
      assert entries[1..][i] == entries[i + 1];
    }
  }

  /** When no entry throws, the loop prepends the imported posts in reverse input order and counts them. */
  lemma {:induction false} ImportLoopResult(entries: seq<JsonValue>, posts: seq<Post>, k: nat,
                                            clock: nat -> Instant, sanitize: string -> string)
    requires forall i :: 0 <= i < |entries| ==> !Throws(entries[i])
    ensures ImportLoop(entries, posts, k, clock, sanitize)
            == ImportRun(Seqs.Reverse(ImportedPosts(ImportableEntries(entries), k, clock, sanitize)) + posts,
                         k + |ImportableEntries(entries)|, false)
  {
    if |entries| > 0 {
      var e, rest := entries[0], entries[1..];
      NoThrowInRest(entries);
      var validRest := ImportableEntries(rest);
      if Importable(e) {
        var p := ImportedPost(e, k, clock, sanitize);
        ImportLoopResult(rest, [p] + posts, k + 1, clock, sanitize);
        var tail := ImportedPosts(validRest, k + 1, clock, sanitize);
        assert ImportableEntries(entries) == [e] + validRest;
        Seqs.MapNumberedCons(e, validRest, k, (e: JsonValue, n: nat) => ImportedPost(e, n, clock, sanitize));
        assert ([p] + tail)[1..] == tail;
        assert Seqs.Reverse(tail) + ([p] + posts) == (Seqs.Reverse(tail) + [p]) + posts;
      } else {
        ImportLoopResult(rest, posts, k, clock, sanitize);
        assert ImportableEntries(entries) == validRest;
      }
    }
  }

  /** Running the loop over a non-throwing prefix and then over the rest is running it over the whole. */
  lemma {:induction false} ImportLoopSplit(entries: seq<JsonValue>, posts: seq<Post>, k: nat, j: nat,
                                           clock: nat -> Instant, sanitize: string -> string)
    requires j <= |entries|
    requires forall i :: 0 <= i < j ==> !Throws(entries[i])
    ensures var head := ImportLoop(entries[..j], posts, k, clock, sanitize);
            ImportLoop(entries, posts, k, clock, sanitize) == ImportLoop(entries[j..], head.posts, head.count, clock, sanitize)
  {
    if j == 0 {
      assert entries[..j] == [] && entries[j..] == entries;
    } else {
      var e, rest := entries[0], entries[1..];
      assert !Throws(e);
      assert entries[..j][0] == e && entries[..j][1..] == rest[..j - 1];
      assert entries[j..] == rest[j - 1..];
      assert forall i :: 0 <= i < j - 1 ==> !Throws(rest[i]) by {
        forall i | 0 <= i < j - 1 ensures !Throws(rest[i]) {
          assert rest[i] == entries[i + 1];
        }
      }
      if Importable(e) {
        ImportLoopSplit(rest, [ImportedPost(e, k, clock, sanitize)] + posts, k + 1, j - 1, clock, sanitize);
      } else {
        ImportLoopSplit(rest, posts, k, j - 1, clock, sanitize);
      }
    }
  }

  /** An entry that throws stops the loop after the entries before it have been imported. */
  lemma ImportLoopStopsAt(entries: seq<JsonValue>, posts: seq<Post>, k: nat, j: nat,
                          clock: nat -> Instant, sanitize: string -> string)
    requires j < |entries| && Throws(entries[j])
    requires forall i :: 0 <= i < j ==> !Throws(entries[i])
    ensures ImportLoop(entries, posts, k, clock, sanitize)
            == ImportRun(Seqs.Reverse(ImportedPosts(ImportableEntries(entries[..j]), k, clock, sanitize)) + posts,
                         k + |ImportableEntries(entries[..j])|, true)
  {
    var before := entries[..j];
    assert forall i :: 0 <= i < |before| ==> !Throws(before[i]);
    ImportLoopResult(before, posts, k, clock, sanitize);
    ImportLoopSplit(entries, posts, k, j, clock, sanitize);
    assert entries[j..][0] == entries[j];
  }

  /** Whatever happens in the loop, the posts that were there stay at the end of the array, unchanged. */
  lemma {:induction false} ImportLoopKeepsOld(entries: seq<JsonValue>, posts: seq<Post>, k: nat,
                                              clock: nat -> Instant, sanitize: string -> string)
    ensures var run := ImportLoop(entries, posts, k, clock, sanitize);
            |run.posts| >= |posts| && run.posts[|run.posts| - |posts|..] == posts
  {
    if |entries| > 0 && !Throws(entries[0]) {
      if Importable(entries[0]) {
        var p := ImportedPost(entries[0], k, clock, sanitize);
        ImportLoopKeepsOld(entries[1..], [p] + posts, k + 1, clock, sanitize);
        var run := ImportLoop(entries[1..], [p] + posts, k + 1, clock, sanitize);
        assert run.posts[|run.posts| - |posts|..] == run.posts[|run.posts| - |[p] + posts|..][1..];
      } else {
        ImportLoopKeepsOld(entries[1..], posts, k, clock, sanitize);
      }
    }
  }

  /** An entry that throws stops the loop. */
  lemma {:induction false} ImportLoopThrows(entries: seq<JsonValue>, posts: seq<Post>, k: nat,
                                            clock: nat -> Instant, sanitize: string -> string)
    ensures ImportLoop(entries, posts, k, clock, sanitize).threw
            <==> exists i :: 0 <= i < |entries| && Throws(entries[i])
  {
    if |entries| > 0 && !Throws(entries[0]) {
      var rest := entries[1..];
      if Importable(entries[0]) {
        ImportLoopThrows(rest, [ImportedPost(entries[0], k, clock, sanitize)] + posts, k + 1, clock, sanitize);
      } else {
        ImportLoopThrows(rest, posts, k, clock, sanitize);
      }
      if exists i :: 0 <= i < |entries| && Throws(entries[i]) {
        var i :| 0 <= i < |entries| && Throws(entries[i]);
        assert Throws(rest[i - 1]);
      }
      if exists i :: 0 <= i < |rest| && Throws(rest[i]) {
        var i :| 0 <= i < |rest| && Throws(rest[i]);
        assert Throws(entries[i + 1]);
      }
    }
  }

  datatype ImportStep = ImportStep(reply: Reply, posts: seq<Post>, count: nat)

  /**
   * Imports the entries of the body's `posts` array. An entry that throws ends the
   * request with a failure reply, but the posts imported before it stay in memory
   * (they were unshifted one by one); only the save is skipped.
   */
  function BulkImport(posts: seq<Post>, body: Option<JsonValue>, clock: nat -> Instant, sanitize: string -> string)
    : (r: ImportStep)
    ensures !Truthy(body) || !body.value.JArr? ==> r == ImportStep(Failed(InvalidImportFormat), posts, 0)
    ensures r.reply.Ok? <==> Truthy(body) && body.value.JArr?
                             && forall i :: 0 <= i < |body.value.items| ==> !Throws(body.value.items[i])
    ensures r.reply.Ok? ==>
              && r.count == Seqs.Count(body.value.items, Importable)
              && r.posts == Seqs.Reverse(ImportedPosts(ImportableEntries(body.value.items), 0, clock, sanitize)) + posts
    ensures |r.posts| >= |posts| && r.posts[|r.posts| - |posts|..] == posts
    ensures !r.reply.Ok? && Truthy(body) && body.value.JArr? ==> r.reply == Failed(ImportFailed)
    ensures Truthy(body) && body.value.JArr? && Seqs.FindIndex(body.value.items, Throws) >= 0 ==>
              var before := body.value.items[..Seqs.FindIndex(body.value.items, Throws)];
              && r.reply == Failed(ImportFailed)
              && r.count == Seqs.Count(before, Importable)
              && r.posts == Seqs.Reverse(ImportedPosts(ImportableEntries(before), 0, clock, sanitize)) + posts
  {
    if !Truthy(body) || !body.value.JArr? then ImportStep(Failed(InvalidImportFormat), posts, 0)
    else
      var entries := body.value.items;
      var run := ImportLoop(entries, posts, 0, clock, sanitize);
      ImportLoopKeepsOld(entries, posts, 0, clock, sanitize);
      ImportLoopThrows(entries, posts, 0, clock, sanitize);
      var j := Seqs.FindIndex(entries, Throws);
      if run.threw then
        ImportLoopStopsAt(entries, posts, 0, j, clock, sanitize);
        ImportStep(Failed(ImportFailed), run.posts, run.count)
      else
        ImportLoopResult(entries, posts, 0, clock, sanitize);
        ImportStep(Ok("Successfully imported " + Text.DecimalString(run.count) + " blog posts"), run.posts, run.count)
  }

  /** The first imported post is the last importable entry: the import ends up in reverse input order. */
  lemma ImportReversesOrder(posts: seq<Post>, body: Option<JsonValue>, clock: nat -> Instant, sanitize: string -> string)
    requires BulkImport(posts, body, clock, sanitize).reply.Ok?
    ensures var r := BulkImport(posts, body, clock, sanitize);
            var valid := ImportableEntries(body.value.items);
            forall i :: 0 <= i < |valid| ==>
              r.posts[i].title == Text.Trim(AsString(Prop(valid[|valid| - 1 - i], "title")))
  {
  }

  // ---------------------------------------------------------------------
  // GET /blog?category=...
  // ---------------------------------------------------------------------

  /** `post => post.category === key`. */
  function CategoryIs(key: string): Post -> bool {
    (p: Post) => p.category == Some(key)
  }

  /**
   * `posts.filter(post => post.category === key)`: the posts of one category,
   * each as often as it occurs, in list order.
   */
  function InCategory(posts: seq<Post>, key: string): (r: seq<Post>)
    ensures forall i :: 0 <= i < |r| ==> r[i].category == Some(key) && r[i] in posts
    ensures forall i :: 0 <= i < |posts| && posts[i].category == Some(key) ==> posts[i] in r
    ensures |r| == Seqs.Count(posts, CategoryIs(key))
    ensures Seqs.Subsequence(r, posts)
  {
    Seqs.Filter(posts, CategoryIs(key))
  }

  /** The filter works piecewise over any split of the list, so the posts it keeps stay in list order. */
  lemma InCategoryAppend(a: seq<Post>, b: seq<Post>, key: string)
    ensures InCategory(a + b, key) == InCategory(a, key) + InCategory(b, key)
  {
    Seqs.FilterAppend(a, b, CategoryIs(key));
  }

  /** No post of the category, no post on the page. */
  lemma InCategoryNone(posts: seq<Post>, key: string)
    requires forall i :: 0 <= i < |posts| ==> posts[i].category != Some(key)
    ensures InCategory(posts, key) == []
  {
    Seqs.FilterNone(posts, CategoryIs(key));
  }

  /** The blog page's post list for the `category` query value: filtered only for a defined category key. */
  function FilterByCategory(posts: seq<Post>, selected: Option<string>): (r: seq<Post>)
    ensures selected.None? || selected.value !in Categories.CategoryNames ==> r == posts
    ensures selected.Some? && selected.value in Categories.CategoryNames ==> r == InCategory(posts, selected.value)
  {
    if selected.Some? && selected.value != "" && selected.value in Categories.CategoryNames
    then InCategory(posts, selected.value)
    else posts
  }

  /**
   * The page's post list for the raw `category` query value, which Express's query
   * parser makes text, an array (`category[]=…`, or the key given twice) or an
   * object (`category[x]=…`). Only text can name a category; anything else is
   * treated like an unknown category.
   */
  function FilterByCategoryQuery(posts: seq<Post>, selected: Option<JsonValue>): (r: seq<Post>)
    ensures selected.Some? && selected.value.JStr? ==> r == FilterByCategory(posts, Some(selected.value.s))
    ensures !(selected.Some? && selected.value.JStr?) ==> r == posts
  {
    if selected.Some? && selected.value.JStr? then FilterByCategory(posts, Some(selected.value.s)) else posts
  }

  /** `blogCategories[key]` on the plain object: a defined category or an inherited member. */
  predicate KeyFindsCategory(key: string) {
    key in Categories.CategoryNames || key in ObjectPrototypeMembers
  }

  /**
   * The filter as server.js writes it. `blogCategories[selected]` converts the
   * query value to a property key and is also truthy for every name a plain
   * object inherits; `post.category === selected` then holds only when the value
   * is text, so any other value that names a category empties the page.
   */
  function FilterByCategoryAsWritten(posts: seq<Post>, selected: Option<JsonValue>): (r: seq<Post>)
    ensures !Truthy(selected) || !KeyFindsCategory(PropertyKey(selected.value)) ==> r == posts
    ensures Truthy(selected) && KeyFindsCategory(PropertyKey(selected.value)) ==>
              r == if selected.value.JStr? then InCategory(posts, selected.value.s) else []
  {
    if Truthy(selected) && KeyFindsCategory(PropertyKey(selected.value)) then
      if selected.value.JStr? then InCategory(posts, selected.value.s)
      else []   // no post's category is strictly equal to an array or an object
    else posts
  }

  /** `?category=constructor` empties the page as written, where an unknown category should show every post. */
  lemma InheritedCategoryEmptiesPage(posts: seq<Post>)
    requires |posts| > 0
    requires forall i :: 0 <= i < |posts| ==> posts[i].category.None? || posts[i].category.value in Categories.CategoryNames
    ensures FilterByCategoryAsWritten(posts, Some(JStr("constructor"))) == []
    ensures FilterByCategory(posts, Some("constructor")) == posts
  {
    assert "constructor" !in Categories.CategoryNames;
    InCategoryNone(posts, "constructor");
  }

  /**
   * `?category[]=maintenance-care` empties the page as written: the array names a
   * category as a key but equals no post's category. Intended: a value that is not
   * text is no category, and the page shows every post.
   */
  lemma ArrayCategoryEmptiesPage(posts: seq<Post>)
    requires |posts| > 0
    ensures FilterByCategoryAsWritten(posts, Some(JArr([JStr(Categories.DefaultCategory)]))) == []
    ensures FilterByCategoryQuery(posts, Some(JArr([JStr(Categories.DefaultCategory)]))) == posts
  {
    assert Categories.DefaultCategory in Categories.CategoryNames;
  }

  /** For text away from the inherited names, and for an absent value, the written filter and the intended one agree. */
  lemma FilterAsWrittenAgrees(posts: seq<Post>, selected: Option<JsonValue>)
    requires selected.None? || (selected.value.JStr? && selected.value.s !in ObjectPrototypeMembers)
    ensures FilterByCategoryAsWritten(posts, selected) == FilterByCategoryQuery(posts, selected)
  {
  }

  /** Every post of a filtered page is in the chosen category, and the filter is a fixed point. */
  lemma FilterByCategoryStable(posts: seq<Post>, key: string)
    requires key in Categories.CategoryNames
    ensures FilterByCategory(FilterByCategory(posts, Some(key)), Some(key)) == FilterByCategory(posts, Some(key))
  {
    var once := InCategory(posts, key);
    Seqs.FilterShrinks(once, CategoryIs(key));
  }
}
