/** The older firehose handler (src/subscription.ts): the same post-side
    logic as the feed's handler, with a shorter exclude list, as a
    handler of raw repo events that skips everything but commits. */
module Subscription {
  import opened Wrappers
  import opened Timer
  import opened Store
  import opened Text
  import Firehose
  import Handler

  /** The exclude list of the older filter: the newer one without
      `#survivorcoach` and `#survivormusic`. */
  const ExcludeTags: seq<string> := [
    "#survivorseries", "#survivorgameplay", "#deadbydaylight", "#survivors",
    "#survivorslike", "#rainworld", "#survivorlike", "#survivorsguilt",
    "#survivorguilt", "#csasurvivor", "#survivorsempowered", "#mentalhealth",
    "#excult", "#traffickingsurvivor", "#abortion", "#csa", "#sa", "#cptsd", "#iptv"]

  /** `filterPost` of the older handler. */
  predicate FilterPost(text: string)
  {
    Handler.OnTopic(text, ExcludeTags)
  }

  /** The newer list is the older one with `#survivorcoach` and
      `#survivormusic` inserted after `#traffickingsurvivor`. */
  lemma ExcludeTagsRelation()
    ensures Handler.ExcludeTags == ExcludeTags[..14] + ["#survivorcoach", "#survivormusic"] + ExcludeTags[14..]
  {
  }

  /** Mentioning a tag of a concatenation is mentioning one of either part. */
  lemma MentionsAnyConcat(text: string, a: seq<string>, b: seq<string>)
    ensures Handler.MentionsAny(text, a + b) <==> Handler.MentionsAny(text, a) || Handler.MentionsAny(text, b)
  {
    if Handler.MentionsAny(text, a + b) {
      var i :| 0 <= i < |a + b| && Contains(text, (a + b)[i]);
      if i >= |a| {
        assert (a + b)[i] == b[i - |a|];
      }
    }
    if Handler.MentionsAny(text, a) {
      var i :| 0 <= i < |a| && Contains(text, a[i]);
      assert (a + b)[i] == a[i];
    }
    if Handler.MentionsAny(text, b) {
      var i :| 0 <= i < |b| && Contains(text, b[i]);
      assert (a + b)[|a| + i] == b[i];
    }
  }

  /** The two filters differ exactly on the two tags only the newer one
      excludes: the newer filter accepts a text if and only if the older
      one does and the text mentions neither `#survivorcoach` nor
      `#survivormusic` (in any letter case). */
  lemma {:induction false} FiltersDiffer(text: string)
    ensures Handler.FilterPost(text)
        <==> FilterPost(text) && !Contains(Lower(text), "#survivorcoach") && !Contains(Lower(text), "#survivormusic")
  {
    var t := Lower(text);
    var extra := ["#survivorcoach", "#survivormusic"];
    ExcludeTagsRelation();
    MentionsAnyConcat(t, ExcludeTags[..14] + extra, ExcludeTags[14..]);
    MentionsAnyConcat(t, ExcludeTags[..14], extra);
    MentionsAnyConcat(t, ExcludeTags[..14], ExcludeTags[14..]);
    assert ExcludeTags[..14] + ExcludeTags[14..] == ExcludeTags;
    assert Handler.MentionsAny(t, extra) <==> Contains(t, extra[0]) || Contains(t, extra[1]);
  }

  /** Hence every text the newer filter accepts, the older one accepts too. */
  lemma NewerIsStricter(text: string)
    requires Handler.FilterPost(text)
    ensures FilterPost(text)
  {
    FiltersDiffer(text);
  }

  /** A text mentioning `#survivors`, in any letter case, is rejected. */
  lemma SurvivorsRejected(text: string)
    requires Contains(Lower(text), "#survivors")
    ensures !FilterPost(text)
  {
    assert ExcludeTags[3] == "#survivors";
  }

  /** `FirehoseSubscription` of src/subscription.ts: the handler part.
      The stream loop comes from a base class that is not part of this
      model. */
  class FirehoseSubscription {
    const db: Database
    var lastFileCheck: map<string, int>
    const fileCheckInterval: int

    constructor (db: Database)
      ensures this.db == db && lastFileCheck == map[] && fileCheckInterval == 60 * 1000
    {
      this.db := db;
      lastFileCheck := map[];
      fileCheckInterval := 60 * 1000;
    }

    /** `handleEvent`: a non-commit event changes nothing. For a commit,
        `opsOf` is the batch the base module's `getOpsByType` makes of it;
        the rest is as in the newer handler, with the older filter for the
        stream's creates and for the fetched posts alike. */
    method HandleEvent(evt: Firehose.RepoEvent, opsOf: Firehose.Commit -> FeedOperationsByType,
                       stamp: nat -> Millis, now: Millis,
                       deleteFile: Handler.FileState, insertFile: Handler.FileState,
                       resolve: string -> Option<string>, fetch: string -> Option<Handler.Fetched>)
      returns (emptied: seq<string>, r: Result<()>)
      modifies this`lastFileCheck, db`post
      ensures !evt.CommitEvent? ==>
                emptied == [] && r == Ok(()) && lastFileCheck == old(lastFileCheck) && db.post == old(db.post)
      ensures evt.CommitEvent? ==>
        var ops := opsOf(evt.commit);
        var plan := Handler.SideFiles(old(lastFileCheck), now, fileCheckInterval, deleteFile, insertFile,
                                      resolve, fetch, FilterPost);
        && lastFileCheck == plan.lastFileCheck
        && emptied == plan.emptied
        && (r.Err? <==> plan.outcome.Err?)
        && (r.Err? ==> r.error == plan.outcome.error && db.post == old(db.post))
        && (r.Ok? ==>
              db.post == InsertIgnore(
                   DeleteUris(old(db.post), Handler.DeletedUris(ops.posts.deletes) + plan.outcome.value.deletes),
                   Handler.Stamped(Handler.Matching(ops.posts.creates, FilterPost), stamp)
                   + plan.outcome.value.creates))
    {
      if !evt.CommitEvent? {
        return [], Ok(());
      }
      var ops := opsOf(evt.commit);
      var postsToDelete := Handler.DeletedUris(ops.posts.deletes);
      var postsToCreate := Handler.Stamped(Handler.Matching(ops.posts.creates, FilterPost), stamp);

      var last, gone, manual := Handler.CheckSideFiles(lastFileCheck, now, fileCheckInterval, deleteFile, insertFile,
                                                       resolve, fetch, FilterPost);
      lastFileCheck := last;
      emptied := gone;
      if manual.Err? {
        return emptied, Err(manual.error);
      }
      postsToDelete := postsToDelete + manual.value.deletes;
      postsToCreate := postsToCreate + manual.value.creates;

      if |postsToDelete| > 0 {
        db.DeletePosts(postsToDelete);
      } else {
        DeleteNothing(db.post);
      }
      if |postsToCreate| > 0 {
        db.InsertPosts(postsToCreate);
      }
      return emptied, Ok(());
    }
  }
}
