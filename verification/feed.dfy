/**
 * The `fetch_feed` tool of main.py: after navigation, every post container
 * on the page is turned into an `author: excerpt` entry when its text
 * mentions the topic, until `max_posts` entries are collected.
 */
module Feed {
  import opened Wrappers
  import opened Util
  import opened Text
  import Auth
  import Navigation

  /** A post container: its full text, its author element's text if there is one, and whether reading it raises. */
  datatype Post = Post(text: string, author: Option<string>, raises: bool)

  const ExcerptLimit: nat := 300
  const UnknownAuthor := "Unknown"
  const FeedErrorPrefix := "Error fetching LinkedIn feed: "

  /** The first 300 characters of a post's text with newlines turned into spaces. */
  function Excerpt(text: string): (x: string)
    ensures |x| == Min(|text|, ExcerptLimit)
    ensures '\n' !in x
    ensures forall i :: 0 <= i < |x| ==> x[i] == if text[i] == '\n' then ' ' else text[i]
  {
    ReplaceNewlines(Take(text, ExcerptLimit))
  }

  /** The author element's text, or "Unknown" when the post has no author element. */
  function AuthorName(p: Post): (r: string)
    ensures p.author.None? ==> r == UnknownAuthor
    ensures p.author.Some? ==> r == p.author.value
  {
    p.author.GetOr(UnknownAuthor)
  }

  /** The entry for a post: its author, a colon and a space, then a newline-free excerpt of at most 300 characters. */
  function Entry(p: Post): (e: string)
    ensures |AuthorName(p)| + 2 <= |e| <= |AuthorName(p)| + 2 + ExcerptLimit
    ensures e[..|AuthorName(p)| + 2] == AuthorName(p) + ": "
    ensures e[|AuthorName(p)| + 2..] == Excerpt(p.text)
    ensures '\n' !in e[|AuthorName(p)| + 2..]
  {
    AuthorName(p) + ": " + Excerpt(p.text)
  }

  /** A post yields an entry: it can be read and its text mentions the topic, ignoring case. */
  predicate Qualifies(p: Post, topic: string) {
    !p.raises && Contains(Lower(p.text), Lower(topic))
  }

  /** Reference definition: the entries of all qualifying posts, in page order, with no cap. */
  function Entries(posts: seq<Post>, topic: string): seq<string> {
    if posts == [] then []
    else (if Qualifies(posts[0], topic) then [Entry(posts[0])] else []) + Entries(posts[1..], topic)
  }

  /** How many entries the loop collects at most: the cap is tested after an append, so at least one. */
  function Cap(maxPosts: int): (c: nat)
    ensures c >= 1
    ensures maxPosts >= 1 ==> c == maxPosts
    ensures maxPosts < 1 ==> c == 1
  {
    if maxPosts >= 1 then maxPosts else 1
  }

  /** Entries respect page order: those of a concatenation are the concatenation of the entries. */
  lemma {:induction false} EntriesAppend(a: seq<Post>, b: seq<Post>, topic: string)
    ensures Entries(a + b, topic) == Entries(a, topic) + Entries(b, topic)
    decreases |a|
  {
    if a == [] {
      assert a + b == b;
    } else {
      assert (a + b)[1..] == a[1..] + b;
      EntriesAppend(a[1..], b, topic);
    }
  }

  /** An entry is produced for a post exactly when that post qualifies. */
  lemma {:induction false} EntriesMembership(posts: seq<Post>, topic: string, e: string)
    ensures e in Entries(posts, topic) <==>
              exists i :: 0 <= i < |posts| && Qualifies(posts[i], topic) && e == Entry(posts[i])
    decreases |posts|
  {
    if posts != [] {
      EntriesMembership(posts[1..], topic, e);
      if e in Entries(posts[1..], topic) {
        var i :| 0 <= i < |posts[1..]| && Qualifies(posts[1..][i], topic) && e == Entry(posts[1..][i]);
        assert posts[i + 1] == posts[1..][i];
      }
      if exists i :: 0 <= i < |posts| && Qualifies(posts[i], topic) && e == Entry(posts[i]) {
        var i :| 0 <= i < |posts| && Qualifies(posts[i], topic) && e == Entry(posts[i]);
        if i > 0 {
          assert posts[1..][i - 1] == posts[i];
        }
      }
    }
  }

  /** No entries at all exactly when no post qualifies. */
  lemma {:induction false} EntriesEmptyIffNoneQualify(posts: seq<Post>, topic: string)
    ensures Entries(posts, topic) == [] <==> forall i :: 0 <= i < |posts| ==> !Qualifies(posts[i], topic)
    decreases |posts|
  {
    if posts != [] {
      EntriesEmptyIffNoneQualify(posts[1..], topic);
      if forall i :: 0 <= i < |posts[1..]| ==> !Qualifies(posts[1..][i], topic) {
        if !Qualifies(posts[0], topic) {
          forall i | 0 <= i < |posts| ensures !Qualifies(posts[i], topic) {
            if i > 0 { assert posts[i] == posts[1..][i - 1]; }
          }
        }
      } else {
        var i :| 0 <= i < |posts[1..]| && Qualifies(posts[1..][i], topic);
        assert Qualifies(posts[i + 1], topic);
      }
    }
  }

  /** The post loop of `fetch_feed`: filter, format, and stop once `max_posts` entries are collected. */
  method SelectPosts(posts: seq<Post>, topic: string, maxPosts: int) returns (results: seq<string>)
    ensures results == Take(Entries(posts, topic), Cap(maxPosts))
    ensures maxPosts >= 1 ==> |results| <= maxPosts
    ensures maxPosts < 1 ==> |results| <= 1
  {
    results := [];
    var i := 0;
    while i < |posts|
      invariant 0 <= i <= |posts|
      invariant results == Entries(posts[..i], topic)
      invariant |results| < Cap(maxPosts)
    {
      var post := posts[i];
      assert posts[..i + 1] == posts[..i] + [post];
      EntriesAppend(posts[..i], [post], topic);
      if !post.raises {
        var text := post.text;
        if Contains(Lower(text), Lower(topic)) {
          var authorName := if post.author.Some? then post.author.value else UnknownAuthor;
          var content := ReplaceNewlines(Take(text, ExcerptLimit));
          results := results + [authorName + ": " + content];
          if |results| >= maxPosts {
            assert posts[..i + 1] + posts[i + 1..] == posts;
            EntriesAppend(posts[..i + 1], posts[i + 1..], topic);
            return;
          }
        }
      }
      i := i + 1;
    }
    assert posts[..i] == posts;
  }

  /**
   * The whole `fetch_feed` tool: the session gate, the feed navigation loop,
   * then the post loop over the containers on the loaded page.
   */
  method FetchFeed(sessionSaved: bool, attempts: seq<Navigation.FeedAttempt>, posts: seq<Post>,
                   topic: string, maxPosts: int)
    returns (r: Result<seq<string>, string>)
    requires |attempts| >= Navigation.MaxAttempts
    ensures !sessionSaved ==> r == Err(Auth.NotAuthenticated)
    ensures sessionSaved && Navigation.FeedNavigation(attempts).FeedFailed? ==>
              r == Err(FeedErrorPrefix + Navigation.FeedNavigation(attempts).message)
    ensures sessionSaved && Navigation.FeedNavigation(attempts).FeedReady? ==>
              r == Ok(Take(Entries(posts, topic), Cap(maxPosts)))
  {
    if !sessionSaved {
      return Err(Auth.NotAuthenticated);
    }
    var nav := Navigation.NavigateFeed(attempts);
    if nav.FeedFailed? {
      return Err(FeedErrorPrefix + nav.message);
    }
    var results := SelectPosts(posts, topic, maxPosts);
    return Ok(results);
  }
}
