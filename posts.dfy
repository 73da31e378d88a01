/**
 * The post controller: the like toggle with its broadcast and notification,
 * comments with their notification, and the personalised feed's paging.
 */
module Posts {
  import opened Common
  import opened Events
  import opened Store

  /** The post after the user's like is toggled: pulled when present, pushed otherwise. */
  function LikeToggled(p: Post, u: UserId): (r: Post)
    ensures u in r.likes <==> u !in p.likes
    ensures forall v :: v != u ==> (v in r.likes <==> v in p.likes)
    ensures r.owner == p.owner && r.content == p.content && r.comments == p.comments
  {
    p.(likes := Toggle(p.likes, u))
  }

  /** Liking twice restores who likes the post. */
  lemma LikeTwiceRestores(p: Post, u: UserId)
    ensures forall v :: v in LikeToggled(LikeToggled(p, u), u).likes <==> v in p.likes
  {
    ToggleTwice(p.likes, u);
  }

  /** A user appears in `likes` at most once however often they toggle. */
  lemma LikeKeepsLikesDistinct(p: Post, u: UserId)
    requires Distinct(p.likes)
    ensures Distinct(LikeToggled(p, u).likes)
    ensures |LikeToggled(p, u).likes| == if u in p.likes then |p.likes| - 1 else |p.likes| + 1
  {
    ToggleKeepsDistinct(p.likes, u);
    if u in p.likes {
      var i :| 0 <= i < |p.likes| && p.likes[i] == u;
      PullOfDistinct(p.likes, u, i);
    }
  }

  /** Pulling an element that occurs once shortens the array by exactly one. */
  lemma {:induction false} PullOfDistinct(s: seq<UserId>, x: UserId, i: nat)
    requires Distinct(s) && i < |s| && s[i] == x
    ensures |Pull(s, x)| == |s| - 1
    decreases |s|
  {
    if i == 0 {
      assert x !in s[1..] by {
        forall k | 0 <= k < |s[1..]| ensures s[1..][k] != x {
          assert s[1..][k] == s[k + 1];
        }
      }
    } else {
      assert s[1..][i - 1] == x;
      PullOfDistinct(s[1..], x, i - 1);
    }
  }

  /** The like notification: only a new like by someone other than the owner notifies the owner. */
  function LikeNotification(p: Post, postId: PostId, u: UserId, hadLiked: bool): (r: Option<Notification>)
    ensures r.Some? <==> !hadLiked && p.owner != u
    ensures r.Some? ==> r.value.receiver == p.owner && r.value.sender == u && r.value.kind == LikeNotice
                        && r.value.post == Some(postId) && !r.value.read
  {
    if !hadLiked && p.owner != u then Some(Notification(p.owner, u, LikeNotice, Some(postId), None, false)) else None
  }

  datatype LikeResult =
    | MissingPostId        // 400 MISSING_POST_ID
    | Unauthorized         // 401 UNAUTHORIZED
    | PostNotFound         // 404 POST_NOT_FOUND
    | LikeServerError      // 500 SERVER_ERROR
    | Liked(likes: seq<UserId>, hasLiked: bool)

  /**
   * toggleLike: the checks run in the order post id, user, post; the toggled
   * likes are saved and broadcast when sockets are available (`io`); a new
   * like by a non-owner saves a notification (a failed save, `notifFails`,
   * is swallowed) and pushes it to the owner's room. `user` is the id the
   * auth middleware attached.
   */
  method ToggleLike(db: Database, postId: string, user: Option<UserId>, io: bool, notifFails: bool)
    returns (r: LikeResult, emitted: seq<Emit>)
    modifies db
    ensures db.users == old(db.users) && db.comments == old(db.comments) && db.messages == old(db.messages)
    ensures db.conversations == old(db.conversations)
    ensures r == MissingPostId <==> postId == ""
    ensures r == Unauthorized <==> postId != "" && user.None?
    ensures r == LikeServerError <==> postId != "" && user.Some? && !IsObjectId(postId)
    ensures r == PostNotFound <==> postId != "" && user.Some? && IsObjectId(postId) && Canonical(postId) !in old(db.posts)
    ensures !r.Liked? ==> db.posts == old(db.posts) && db.notifications == old(db.notifications) && emitted == []
    ensures r.Liked? ==>
      var key, u := Canonical(postId), user.value;
      var before := old(db.posts)[key];
      var after := LikeToggled(before, u);
      var note := LikeNotification(before, key, u, u in before.likes);
      && r == Liked(after.likes, u !in before.likes)
      && db.posts == old(db.posts)[key := after]
      && db.notifications == old(db.notifications) + (if note.Some? && !notifFails then [note.value] else [])
      && emitted == (if io then [Emit(ToEveryone, LikeUpdate(key, after.likes))] else [])
                    + (if note.Some? && !notifFails && io then [Emit(ToUser(before.owner), NewNotification(before.owner, u, "like"))] else [])
  {
    emitted := [];
    if postId == "" {
      return MissingPostId, emitted;
    }
    if user.None? {
      return Unauthorized, emitted;
    }
    if !IsObjectId(postId) {
      return LikeServerError, emitted;
    }
    var key, u := Canonical(postId), user.value;
    if key !in db.posts {
      return PostNotFound, emitted;
    }
    var post := db.posts[key];
    var hasLiked := u in post.likes;
    if hasLiked {
      post := post.(likes := Pull(post.likes, u));
    } else {
      post := post.(likes := post.likes + [u]);
    }
    db.posts := db.posts[key := post];
    if io {
      emitted := emitted + [Emit(ToEveryone, LikeUpdate(key, post.likes))];
    }
    if !hasLiked && post.owner != u {
      if !notifFails {
        db.notifications := db.notifications + [Notification(post.owner, u, LikeNotice, Some(key), None, false)];
        if io {
          emitted := emitted + [Emit(ToUser(post.owner), NewNotification(post.owner, u, "like"))];
        }
      }
    }
    r := Liked(post.likes, !hasLiked);
  }

  /** The longest comment the comment schema accepts. */
  const MaxCommentLength := 500

  /** The comment schema accepts the content: present, non-empty and at most 500 characters. */
  predicate CommentAccepted(content: Option<string>) {
    Truthy(content) && |content.value| <= MaxCommentLength
  }

  /** The comment notification: sent to the owner, with the comment text, unless the owner is the commenter. */
  function CommentNotification(p: Post, postId: PostId, u: UserId, content: string): (r: Option<Notification>)
    ensures r.Some? <==> p.owner != u
    ensures r.Some? ==> r.value.receiver == p.owner && r.value.sender == u && r.value.kind == CommentNotice
                        && r.value.post == Some(postId) && r.value.content == Some(content)
  {
    if p.owner != u then Some(Notification(p.owner, u, CommentNotice, Some(postId), Some(content), false)) else None
  }

  datatype CommentResult =
    | CommentPostNotFound     // 404 'Post not found'
    | CommentServerError      // 500 'Server error'
    | Commented(id: CommentId, comment: Comment)

  /**
   * addComment: load the post, save the comment under the fresh id `newId`
   * (schema validation may refuse it), append its id to the post, and notify
   * the owner unless they commented themselves (`notifFails` makes that save
   * fail, which is swallowed).
   */
  method AddComment(db: Database, postId: string, user: UserId, content: Option<string>, newId: CommentId, notifFails: bool)
    returns (r: CommentResult)
    requires newId !in db.comments
    modifies db
    ensures db.users == old(db.users) && db.messages == old(db.messages) && db.conversations == old(db.conversations)
    ensures r == CommentServerError <==> !IsObjectId(postId) || (Canonical(postId) in old(db.posts) && !CommentAccepted(content))
    ensures r == CommentPostNotFound <==> IsObjectId(postId) && Canonical(postId) !in old(db.posts)
    ensures !r.Commented? ==> db.posts == old(db.posts) && db.comments == old(db.comments) && db.notifications == old(db.notifications)
    ensures r.Commented? ==>
      var key := Canonical(postId);
      var before := old(db.posts)[key];
      var note := CommentNotification(before, key, user, content.value);
      && r == Commented(newId, Comment(user, key, content.value))
      && db.comments == old(db.comments)[newId := r.comment]
      && db.posts == old(db.posts)[key := before.(comments := before.comments + [newId])]
      && db.notifications == old(db.notifications) + (if note.Some? && !notifFails then [note.value] else [])
  {
    if !IsObjectId(postId) {
      return CommentServerError;
    }
    var key := Canonical(postId);
    if key !in db.posts {
      return CommentPostNotFound;
    }
    var post := db.posts[key];
    if !CommentAccepted(content) {
      return CommentServerError;
    }
    var comment := Comment(user, key, content.value);
    db.comments := db.comments[newId := comment];
    post := post.(comments := post.comments + [newId]);
    db.posts := db.posts[key := post];
    if post.owner != user && !notifFails {
      db.notifications := db.notifications + [Notification(post.owner, user, CommentNotice, Some(key), Some(content.value), false)];
    }
    r := Commented(newId, comment);
  }

  // ---------------------------------------------------------------------
  // parseInt, as the feed applies it to the `page` query parameter
  // ---------------------------------------------------------------------

  /** The value of a character as a digit in radix up to 36, if it is one. */
  function DigitOf(c: char): (r: Option<nat>)
    ensures r.Some? ==> r.value < 36
    ensures '0' <= c <= '9' ==> r == Some(c as nat - '0' as nat)
  {
    if '0' <= c <= '9' then Some(c as nat - '0' as nat)
    else if 'a' <= c <= 'z' then Some(c as nat - 'a' as nat + 10)
    else if 'A' <= c <= 'Z' then Some(c as nat - 'A' as nat + 10)
    else None
  }

  predicate IsDigitIn(c: char, radix: nat) {
    DigitOf(c).Some? && DigitOf(c).value < radix
  }

  /** Every character of d is a digit in the radix. */
  predicate AllDigits(d: string, radix: nat) {
    forall i :: 0 <= i < |d| ==> IsDigitIn(d[i], radix)
  }

  /** The length of the longest prefix of s made of digits in the radix. */
  function DigitRun(s: string, radix: nat): (n: nat)
    ensures n <= |s|
    ensures AllDigits(s[..n], radix)
    ensures n < |s| ==> !IsDigitIn(s[n], radix)
  {
    if s == [] || !IsDigitIn(s[0], radix) then 0
    else
      var n := 1 + DigitRun(s[1..], radix);
      assert s[..n] == [s[0]] + s[1..][..n - 1];
      n
  }

  /** The value of a digit string, most significant digit first. */
  function DigitsValue(d: string, radix: nat): nat
    requires AllDigits(d, radix)
  {
    if d == [] then 0
    else
      assert IsDigitIn(d[|d| - 1], radix);
      DigitsValue(d[..|d| - 1], radix) * radix + DigitOf(d[|d| - 1]).value
  }

  /** s without its leading whitespace and line terminators. */
  function SkipWhitespace(s: string): (r: string)
    ensures r == [] || !IsJsWhitespace(r[0])
    ensures s != [] && !IsJsWhitespace(s[0]) ==> r == s
    ensures TrimsToEmpty(s) ==> r == []
  {
    if s == [] || !IsJsWhitespace(s[0]) then s
    else SkipWhitespace(s[1..])
  }

  /** The string starts with the `0x`/`0X` prefix of a hexadecimal number. */
  predicate HexPrefixed(t: string) {
    |t| >= 2 && t[0] == '0' && (t[1] == 'x' || t[1] == 'X')
  }

  /**
   * The digits after the sign: a `0x`/`0X` prefix selects radix 16 and
   * otherwise radix 10, then the longest run of digits; no digits is NaN (None).
   */
  function ParseUnsigned(t: string): (r: Option<int>)
    ensures HexPrefixed(t) ==> (r.None? <==> |t| == 2 || !IsDigitIn(t[2], 16))
    ensures !HexPrefixed(t) ==> (r.None? <==> t == [] || !IsDigitIn(t[0], 10))
    ensures r.Some? ==> r.value >= 0
  {
    var hex := HexPrefixed(t);
    var radix := if hex then 16 else 10;
    var body := if hex then t[2..] else t;
    var n := DigitRun(body, radix);
    if n == 0 then None else Some(DigitsValue(body[..n], radix))
  }

  /** `parseInt(s)` with no radix: skip leading whitespace, take an optional sign, then read the digits. */
  function JsParseInt(s: string): (r: Option<int>)
    ensures TrimsToEmpty(s) ==> r.None?
  {
    var t := SkipWhitespace(s);
    if t == [] then None
    else if t[0] == '-' then
      var v := ParseUnsigned(t[1..]);
      if v.None? then None else Some(-v.value)
    else if t[0] == '+' then ParseUnsigned(t[1..])
    else ParseUnsigned(t)
  }

  /** The decimal rendering of a natural number, without leading zeros. */
  function Decimal(n: nat): (r: string)
    ensures |r| >= 1 && AllDigits(r, 10)
    ensures (r[0] == '0') <==> n == 0
  {
    var last := ['0' + (n % 10) as char];
    if n < 10 then last else Decimal(n / 10) + last
  }

  lemma {:induction false} DecimalValue(n: nat)
    ensures DigitsValue(Decimal(n), 10) == n
    decreases n
  {
    var d := Decimal(n);
    if n >= 10 {
      DecimalValue(n / 10);
      assert d[..|d| - 1] == Decimal(n / 10);
    }
  }

  /**
   * parseInt reads back the decimal rendering of any integer, whatever
   * follows it, as long as the next character is neither a digit nor the
   * `x` of a hexadecimal prefix.
   */
  lemma ParseIntReadsDecimal(n: nat, suffix: string)
    requires suffix == [] || (!IsDigitIn(suffix[0], 10) && suffix[0] != 'x' && suffix[0] != 'X')
    ensures JsParseInt(Decimal(n) + suffix) == Some(n)
    ensures JsParseInt("-" + Decimal(n) + suffix) == Some(-(n as int))
  {
    var s := Decimal(n) + suffix;
    UnsignedReadsDecimal(n, suffix);
    DigitFirst(s);
    var m := "-" + s;
    assert "-" + Decimal(n) + suffix == m;
    NegativeReads(s);
  }

  /** A string that starts with a decimal digit is read by the unsigned reader alone. */
  lemma DigitFirst(s: string)
    requires s != [] && '0' <= s[0] <= '9'
    ensures JsParseInt(s) == ParseUnsigned(s)
  {
    assert SkipWhitespace(s) == s;
  }

  /** A minus sign followed by a digit negates what the unsigned reader reads. */
  lemma NegativeReads(s: string)
    requires s != [] && '0' <= s[0] <= '9' && ParseUnsigned(s).Some?
    ensures JsParseInt("-" + s) == Some(-ParseUnsigned(s).value)
  {
    var m := "-" + s;
    assert m[0] == '-' && m[1..] == s;
    assert SkipWhitespace(m) == m;
  }

  /** The unsigned reader reads back a decimal rendering followed by a non-digit. */
  lemma UnsignedReadsDecimal(n: nat, suffix: string)
    requires suffix == [] || (!IsDigitIn(suffix[0], 10) && suffix[0] != 'x' && suffix[0] != 'X')
    ensures ParseUnsigned(Decimal(n) + suffix) == Some(n)
  {
    var d := Decimal(n);
    var s := d + suffix;
    DecimalValue(n);
    assert s[..|d|] == d;
    DigitRunExact(s, |d|, 10);
    assert !HexPrefixed(s) by {
      if s[0] == '0' && |s| >= 2 {
        assert |d| == 1 && s[1] == suffix[0];
      }
    }
  }

  /** Leading whitespace and line terminators do not change what parseInt reads. */
  lemma ParseIntSkipsLeadingWhitespace(ws: string, s: string)
    requires TrimsToEmpty(ws)
    ensures JsParseInt(ws + s) == JsParseInt(s)
  {
    SkipWhitespaceAppend(ws, s);
  }

  lemma {:induction false} SkipWhitespaceAppend(ws: string, s: string)
    requires TrimsToEmpty(ws)
    ensures SkipWhitespace(ws + s) == SkipWhitespace(s)
    decreases |ws|
  {
    if ws == [] {
      assert ws + s == s;
    } else {
      assert IsJsWhitespace(ws[0]);
      assert (ws + s)[0] == ws[0] && (ws + s)[1..] == ws[1..] + s;
      assert TrimsToEmpty(ws[1..]) by {
        forall i | 0 <= i < |ws[1..]| ensures IsJsWhitespace(ws[1..][i]) {
          assert ws[1..][i] == ws[i + 1];
        }
      }
      SkipWhitespaceAppend(ws[1..], s);
    }
  }

  /** The digit run is the one prefix of digits followed by a non-digit or the end. */
  lemma DigitRunExact(s: string, k: nat, radix: nat)
    requires k <= |s| && AllDigits(s[..k], radix)
    requires k < |s| ==> !IsDigitIn(s[k], radix)
    ensures DigitRun(s, radix) == k
  {
  }

  // ---------------------------------------------------------------------
  // the personalised feed
  // ---------------------------------------------------------------------

  /** Posts per feed page. */
  const FeedPageSize := 10

  /** `parseInt(page) || 1`: NaN and zero give the first page. */
  function PageNumber(query: Option<string>): (p: int)
    ensures p != 0
    ensures query.None? ==> p == 1
    ensures query.Some? && JsParseInt(query.value).Some? && JsParseInt(query.value).value != 0 ==> p == JsParseInt(query.value).value
    ensures query.Some? && (JsParseInt(query.value).None? || JsParseInt(query.value).value == 0) ==> p == 1
  {
    var parsed := if query.None? then None else JsParseInt(query.value);
    if parsed.None? || parsed.value == 0 then 1 else parsed.value
  }

  /** The number of posts the query skips before the page. */
  function Skip(page: int): int {
    (page - 1) * FeedPageSize
  }

  /**
   * The page of an already ranked (newest first) list: None when the skip is
   * negative, which the database refuses; otherwise up to ten posts starting
   * at the skip.
   */
  function FeedWindow(ranked: seq<PostId>, page: int): (r: Option<seq<PostId>>)
    ensures r.None? <==> page < 1
    ensures r.Some? ==> |r.value| == if Skip(page) >= |ranked| then 0 else Min(FeedPageSize, |ranked| - Skip(page))
    ensures r.Some? ==> forall i :: 0 <= i < |r.value| ==> r.value[i] == ranked[Skip(page) + i]
  {
    if Skip(page) < 0 then None
    else if Skip(page) >= |ranked| then Some([])
    else Some(ranked[Skip(page)..Skip(page) + Min(FeedPageSize, |ranked| - Skip(page))])
  }

  function Min(a: int, b: int): int {
    if a <= b then a else b
  }

  /** Every ranked post is on exactly the page its rank says, at the matching position. */
  lemma FeedPagesCover(ranked: seq<PostId>, i: nat)
    requires i < |ranked|
    ensures FeedWindow(ranked, i / FeedPageSize + 1).Some?
    ensures |FeedWindow(ranked, i / FeedPageSize + 1).value| > i % FeedPageSize
    ensures FeedWindow(ranked, i / FeedPageSize + 1).value[i % FeedPageSize] == ranked[i]
  {
    var page := i / FeedPageSize + 1;
    assert Skip(page) + i % FeedPageSize == i;
  }

  /** The posts of followed users that still exist, in ranked order. */
  function FollowedPosts(ranked: seq<PostId>, posts: map<PostId, Post>, users: map<UserId, Account>, following: seq<UserId>)
    : (r: seq<PostId>)
    ensures |r| <= |ranked|
    ensures forall p :: p in r <==> p in ranked && p in posts && posts[p].owner in following && posts[p].owner in users
  {
    if ranked == [] then []
    else
      var rest := FollowedPosts(ranked[1..], posts, users, following);
      var p := ranked[0];
      assert forall q :: q in ranked <==> q == p || q in ranked[1..];
      if p in posts && posts[p].owner in following && posts[p].owner in users then [p] + rest else rest
  }

  /**
   * The feed keeps the ranked order: the followed posts of a split ranking
   * are those of its two parts in turn, and a single post is kept exactly
   * when its owner is followed and still exists.
   */
  lemma {:induction false} FollowedPostsSplits(a: seq<PostId>, b: seq<PostId>, posts: map<PostId, Post>, users: map<UserId, Account>,
                                               following: seq<UserId>)
    ensures FollowedPosts(a + b, posts, users, following)
            == FollowedPosts(a, posts, users, following) + FollowedPosts(b, posts, users, following)
    ensures forall p :: FollowedPosts([p], posts, users, following)
                        == if p in posts && posts[p].owner in following && posts[p].owner in users then [p] else []
  {
    if a == [] {
      assert a + b == b;
    } else {
      assert (a + b)[1..] == a[1..] + b;
      FollowedPostsSplits(a[1..], b, posts, users, following);
    }
    forall p ensures FollowedPosts([p], posts, users, following)
                     == if p in posts && posts[p].owner in following && posts[p].owner in users then [p] else [] {
      assert [p][1..] == [];
    }
  }

  datatype FeedResult = FeedServerError | Feed(posts: seq<PostId>)

  /**
   * getPersonalizedFeed: page from the query; the caller's followed users
   * (populate drops ids whose user is gone); their posts newest first
   * (`ranked` is the whole collection in that order); one page of ten. A
   * missing caller or a negative skip is a 500.
   */
  function PersonalizedFeed(posts: map<PostId, Post>, users: map<UserId, Account>, me: UserId, query: Option<string>, ranked: seq<PostId>)
    : (r: FeedResult)
    ensures r == FeedServerError <==> me !in users || PageNumber(query) < 1
    ensures r.Feed? ==> me in users && FeedWindow(FollowedPosts(ranked, posts, users, users[me].following), PageNumber(query)).Some?
    ensures r.Feed? ==> r.posts == FeedWindow(FollowedPosts(ranked, posts, users, users[me].following), PageNumber(query)).value
    ensures r.Feed? ==> |r.posts| <= FeedPageSize
    ensures r.Feed? ==> forall p :: p in r.posts ==> p in posts && posts[p].owner in users[me].following && posts[p].owner in users
  {
    if me !in users then FeedServerError
    else
      var page := PageNumber(query);
      var followed := FollowedPosts(ranked, posts, users, users[me].following);
      var window := FeedWindow(followed, page);
      if window.None? then FeedServerError
      else
        assert forall p :: p in window.value ==> p in followed;
        Feed(window.value)
  }

  /**
   * Every post of a followed user is reachable: asking for the page its
   * position says, written in decimal, shows it at the matching place.
   */
  lemma FeedShowsEveryFollowedPost(posts: map<PostId, Post>, users: map<UserId, Account>, me: UserId, ranked: seq<PostId>, i: nat)
    requires me in users && i < |FollowedPosts(ranked, posts, users, users[me].following)|
    ensures var r := PersonalizedFeed(posts, users, me, Some(Decimal(i / FeedPageSize + 1)), ranked);
            && r.Feed? && |r.posts| > i % FeedPageSize
            && r.posts[i % FeedPageSize] == FollowedPosts(ranked, posts, users, users[me].following)[i]
  {
    var page := i / FeedPageSize + 1;
    ParseIntReadsDecimal(page, []);
    assert Decimal(page) + [] == Decimal(page);
    assert PageNumber(Some(Decimal(page))) == page;
    FeedPagesCover(FollowedPosts(ranked, posts, users, users[me].following), i);
  }
}
