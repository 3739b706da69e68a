/**
 * The pure parts of post_digest.py: checking the Slack webhook URL read
 * from the environment, and cutting a long Markdown digest into chunks
 * that fit one webhook post each, at paragraph boundaries.
 */
module PostDigest {
  import opened Wrappers
  import opened Text
  import opened Sorting

  /** `MAX_CHARS`, the default chunk size. */
  const MaxChars: int := 35000

  /** Every Slack Incoming Webhook URL starts with this. */
  const WebhookPrefix: string := "https://hooks.slack.com/services/"

  const NotSet: string := "SLACK_WEBHOOK_URL environment variable is not set."
  const NotWebhook: string := "SLACK_WEBHOOK_URL doesn't look like a Slack Incoming Webhook URL."

  // ---------------------------------------------------------------------
  // read_env_webhook

  /** `read_env_webhook()`, given the value of `SLACK_WEBHOOK_URL` (None
      when the variable is unset): the trimmed URL, or the RuntimeError it
      raises. */
  function ReadEnvWebhook(env: Option<string>): (r: Result<string>)
    ensures r.Ok? <==> (env.Some? && StartsWith(Strip(env.value), WebhookPrefix))
    ensures r.Ok? ==> r.value == Strip(env.value)
    ensures r.Err? ==> r.error == (if env.None? || Strip(env.value) == [] then NotSet else NotWebhook)
  {
    var url := Strip(if env.Some? then env.value else "");
    if url == [] then Err(NotSet)
    else if !StartsWith(url, WebhookPrefix) then Err(NotWebhook)
    else Ok(url)
  }

  /** An accepted URL has no surrounding whitespace, begins with the
      webhook prefix, and is accepted unchanged when read again. */
  lemma WebhookAccepted(env: Option<string>)
    requires ReadEnvWebhook(env).Ok?
    ensures var url := ReadEnvWebhook(env).value;
      && StartsWith(url, WebhookPrefix)
      && Strip(url) == url
      && ReadEnvWebhook(Some(url)) == Ok(url)
  {
    StripIdempotent(env.value);
  }

  // ---------------------------------------------------------------------
  // chunk_text

  /** The paragraphs of `md.split("\n\n")`, each followed by "\n\n", as the
      loop of `chunk_text` feeds them. */
  function Pieces(md: string): (ps: seq<string>)
  {
    var paras := Split(md, "\n\n");
    seq(|paras|, k requires 0 <= k < |paras| => paras[k] + "\n\n")
  }

  /** How the loop of `chunk_text` groups the pieces `ps`: each piece joins
      the current (last) group unless that group is non-empty and its size
      plus the piece's exceeds `limit`, in which case it starts a new one. */
  function Groups(ps: seq<string>, limit: int): seq<seq<string>>
  {
    if ps == [] then []
    else
      var gs := Groups(ps[..|ps| - 1], limit);
      var p := Last(ps);
      if gs != [] && !(|Concat(Last(gs))| + |p| > limit) then gs[..|gs| - 1] + [Last(gs) + [p]]
      else gs + [[p]]
  }

  /** A group as it is posted: its pieces concatenated and right-stripped. */
  function Chunks(gs: seq<seq<string>>): (r: seq<string>)
    ensures |r| == |gs|
  {
    seq(|gs|, k requires 0 <= k < |gs| => RStrip(Concat(gs[k])))
  }

  /** `chunk_text(md, limit)`: the text itself when it fits, else one chunk
      per group of pieces. */
  function ChunkText(md: string, limit: int): seq<string>
  {
    if |md| <= limit then [md] else Chunks(Groups(Pieces(md), limit))
  }

  /** The groups laid end to end. */
  function Flatten<T>(gs: seq<seq<T>>): seq<T>
  {
    if gs == [] then [] else Flatten(gs[..|gs| - 1]) + Last(gs)
  }

  /** The state of the loop of `chunk_text` after the pieces `done`: the
      groups closed so far are in `parts`, the open one is `buf`. */
  predicate LoopState(done: seq<string>, limit: int, parts: seq<string>, buf: seq<string>)
  {
    var gs := Groups(done, limit);
    if gs == [] then parts == [] && buf == []
    else parts == Chunks(gs[..|gs| - 1]) && buf == Last(gs)
  }

  /** `chunk_text(md, limit)` as the loop computes it. */
  method ChunkTextLoop(md: string, limit: int) returns (parts: seq<string>)
    ensures parts == ChunkText(md, limit)
  {
    if |md| <= limit {
      return [md];
    }
    parts := [];
    var buf: seq<string> := [];
    var running := 0;
    var paras := Split(md, "\n\n");
    ghost var ps := Pieces(md);
    for i := 0 to |paras|
      invariant LoopState(ps[..i], limit, parts, buf)
      invariant running == |Concat(buf)|
    {
      var p := paras[i] + "\n\n";
      ghost var next := i + 1;
      LoopStep(ps, i, limit, parts, buf);
      if running + |p| > limit && buf != [] {
        parts := parts + [RStrip(Concat(buf))];
        buf, running := [p], |p|;
        assert Concat([p]) == p + Concat([]);
      } else {
        ConcatAppend(buf, [p]);
        assert Concat([p]) == p + Concat([]);
        buf := buf + [p];
        running := running + |p|;
      }
    }
    assert ps[..|paras|] == ps;
    if buf != [] {
      parts := parts + [RStrip(Concat(buf))];
    }
    ChunksClosed(Groups(ps, limit), parts);
  }

  /** One turn of the loop: the piece `ps[i]` joins the open group or
      closes it and opens its own. */
  lemma LoopStep(ps: seq<string>, i: nat, limit: int, parts: seq<string>, buf: seq<string>)
    requires i < |ps| && LoopState(ps[..i], limit, parts, buf)
    ensures var p := ps[i];
      if |Concat(buf)| + |p| > limit && buf != [] then
        LoopState(ps[..i + 1], limit, parts + [RStrip(Concat(buf))], [p])
      else
        LoopState(ps[..i + 1], limit, parts, buf + [p])
  {
    var done := ps[..i + 1];
    assert done[..i] == ps[..i];
    assert Last(done) == ps[i];
    GroupsNonEmpty(ps[..i], limit);
    if |Concat(buf)| + |ps[i]| > limit && buf != [] {
      LoopClose(done, limit, parts, buf);
    } else {
      LoopJoin(done, limit, parts, buf);
    }
  }

  /** The last piece closes the open group and opens its own. */
  lemma LoopClose(done: seq<string>, limit: int, parts: seq<string>, buf: seq<string>)
    requires done != [] && LoopState(done[..|done| - 1], limit, parts, buf)
    requires buf != [] && |Concat(buf)| + |Last(done)| > limit
    ensures LoopState(done, limit, parts + [RStrip(Concat(buf))], [Last(done)])
  {
    var gs := Groups(done[..|done| - 1], limit);
    var gs' := Groups(done, limit);
    assert gs' == gs + [[Last(done)]];
    assert gs'[..|gs'| - 1] == gs;
    ChunksClosed(gs, parts + [RStrip(Concat(buf))]);
  }

  /** The last piece joins the open group (which may still be empty). */
  lemma LoopJoin(done: seq<string>, limit: int, parts: seq<string>, buf: seq<string>)
    requires done != [] && LoopState(done[..|done| - 1], limit, parts, buf)
    requires Groups(done[..|done| - 1], limit) == [] <==> buf == []
    requires !(buf != [] && |Concat(buf)| + |Last(done)| > limit)
    ensures LoopState(done, limit, parts, buf + [Last(done)])
  {
    var gs := Groups(done[..|done| - 1], limit);
    var gs' := Groups(done, limit);
    if gs != [] {
      assert gs' == gs[..|gs| - 1] + [buf + [Last(done)]];
      assert gs'[..|gs'| - 1] == gs[..|gs| - 1];
    } else {
      assert gs' == [[Last(done)]];
    }
  }

  /** Closing the open group completes the chunk list. */
  lemma ChunksClosed(gs: seq<seq<string>>, parts: seq<string>)
    requires gs != [] && parts == Chunks(gs[..|gs| - 1]) + [RStrip(Concat(Last(gs)))]
    ensures parts == Chunks(gs)
  {
  }

  // ---------------------------------------------------------------------
  // what the grouping promises

  /** Every piece lies in exactly one group, in the original order. */
  lemma {:induction false} GroupsFlatten(ps: seq<string>, limit: int)
    ensures Flatten(Groups(ps, limit)) == ps
  {
    if ps != [] {
      var init := ps[..|ps| - 1];
      var gs := Groups(init, limit);
      var p := Last(ps);
      GroupsFlatten(init, limit);
      assert ps == init + [p];
      if gs != [] && !(|Concat(Last(gs))| + |p| > limit) {
        var gs' := gs[..|gs| - 1] + [Last(gs) + [p]];
        assert gs'[..|gs'| - 1] == gs[..|gs| - 1];
        assert Flatten(gs) == Flatten(gs[..|gs| - 1]) + Last(gs);
      } else {
        assert (gs + [[p]])[..|gs|] == gs;
      }
    }
  }

  /** No group is empty, and there are groups exactly when there are
      pieces. */
  lemma {:induction false} GroupsNonEmpty(ps: seq<string>, limit: int)
    ensures (Groups(ps, limit) == []) <==> (ps == [])
    ensures forall k :: 0 <= k < |Groups(ps, limit)| ==> Groups(ps, limit)[k] != []
  {
    if ps != [] {
      GroupsNonEmpty(ps[..|ps| - 1], limit);
    }
  }

  /** A group of two or more pieces fits in `limit`: a piece joins a group
      only when the sum stays within it. */
  lemma {:induction false} GroupsFit(ps: seq<string>, limit: int)
    ensures forall k :: 0 <= k < |Groups(ps, limit)| ==> Fits(Groups(ps, limit)[k], limit)
  {
    if ps != [] {
      var init := ps[..|ps| - 1];
      var gs := Groups(init, limit);
      var p := Last(ps);
      var gs' := Groups(ps, limit);
      GroupsFit(init, limit);
      if gs != [] && !(|Concat(Last(gs))| + |p| > limit) {
        assert gs' == gs[..|gs| - 1] + [Last(gs) + [p]];
        forall k | 0 <= k < |gs'|
          ensures Fits(gs'[k], limit)
        {
          if k < |gs| - 1 {
            assert gs'[k] == gs[k];
          } else {
            JoinFits(Last(gs), p, limit);
          }
        }
      } else {
        assert gs' == gs + [[p]];
        forall k | 0 <= k < |gs'|
          ensures Fits(gs'[k], limit)
        {
          if k < |gs| {
            assert gs'[k] == gs[k];
          }
        }
      }
    }
  }

  /** A group of two or more pieces is at most `limit` long. */
  predicate Fits(g: seq<string>, limit: int)
  {
    |g| >= 2 ==> |Concat(g)| <= limit
  }

  /** A piece joining within `limit` leaves its group within it. */
  lemma JoinFits(g: seq<string>, p: string, limit: int)
    requires |Concat(g)| + |p| <= limit
    ensures Fits(g + [p], limit)
  {
    ConcatAppend(g, [p]);
    assert Concat([p]) == p + Concat([]);
  }

  /** Where one group ends and the next begins, the first piece of the next
      would have pushed the earlier group past `limit`. */
  lemma {:induction false} GroupsCut(ps: seq<string>, limit: int)
    ensures forall k :: 0 < k < |Groups(ps, limit)| ==> CutBefore(Groups(ps, limit), k, limit)
  {
    if ps != [] {
      var init := ps[..|ps| - 1];
      var gs := Groups(init, limit);
      var p := Last(ps);
      var gs' := Groups(ps, limit);
      GroupsCut(init, limit);
      GroupsNonEmpty(init, limit);
      if gs != [] && !(|Concat(Last(gs))| + |p| > limit) {
        assert gs' == gs[..|gs| - 1] + [Last(gs) + [p]];
        forall k | 0 < k < |gs'|
          ensures CutBefore(gs', k, limit)
        {
          assert gs'[k - 1] == gs[k - 1];
          if k < |gs| - 1 {
            assert gs'[k] == gs[k];
            assert CutBefore(gs, k, limit);
          } else {
            assert gs'[k][0] == gs[k][0];
            assert CutBefore(gs, k, limit);
          }
        }
      } else {
        assert gs' == gs + [[p]];
        forall k | 0 < k < |gs'|
          ensures CutBefore(gs', k, limit)
        {
          assert gs'[k - 1] == gs[k - 1];
          if k < |gs| {
            assert gs'[k] == gs[k];
            assert CutBefore(gs, k, limit);
          }
        }
      }
    }
  }

  /** Group `k` opens with a piece that would have pushed group `k - 1`
      past `limit`. */
  predicate CutBefore(gs: seq<seq<string>>, k: int, limit: int)
    requires 0 < k < |gs|
  {
    gs[k] != [] && |Concat(gs[k - 1])| + |gs[k][0]| > limit
  }

  /** Adding "\n\n" after each paragraph and concatenating is the text
      joined with "\n\n", plus one more "\n\n". */
  lemma {:induction false} ConcatPieces(xs: seq<string>)
    requires xs != []
    ensures Concat(seq(|xs|, k requires 0 <= k < |xs| => xs[k] + "\n\n")) == Join("\n\n", xs) + "\n\n"
  {
    var ys := seq(|xs|, k requires 0 <= k < |xs| => xs[k] + "\n\n");
    if |xs| == 1 {
      assert Concat(ys) == ys[0] + Concat([]);
    } else {
      var tail := xs[1..];
      ConcatPieces(tail);
      assert ys[1..] == seq(|tail|, k requires 0 <= k < |tail| => tail[k] + "\n\n");
      assert Concat(ys) == ys[0] + Concat(ys[1..]);
      assert Join("\n\n", xs) == xs[0] + "\n\n" + Join("\n\n", tail);
    }
  }

  /** The pieces laid end to end are the text plus "\n\n". */
  lemma PiecesCover(md: string)
    ensures Pieces(md) != [] && Concat(Pieces(md)) == md + "\n\n"
  {
    ConcatPieces(Split(md, "\n\n"));
    JoinSplit(md, "\n\n");
  }

  /** Concatenating the groups' texts is concatenating all their pieces. */
  lemma {:induction false} ConcatFlatten(gs: seq<seq<string>>)
    ensures Concat(seq(|gs|, k requires 0 <= k < |gs| => Concat(gs[k]))) == Concat(Flatten(gs))
  {
    if gs != [] {
      var init := gs[..|gs| - 1];
      var whole := seq(|gs|, k requires 0 <= k < |gs| => Concat(gs[k]));
      var front := seq(|init|, k requires 0 <= k < |init| => Concat(init[k]));
      ConcatFlatten(init);
      assert whole == front + [Concat(Last(gs))];
      ConcatAppend(front, [Concat(Last(gs))]);
      assert Concat([Concat(Last(gs))]) == Concat(Last(gs)) + Concat([]);
      ConcatAppend(Flatten(init), Last(gs));
    }
  }

  /** What `chunk_text` promises: the text itself when it fits; otherwise
      at least one chunk, each the right-stripped concatenation of a
      non-empty group of consecutive paragraphs (each followed by "\n\n"),
      the groups laid end to end giving back the text plus "\n\n", every
      group of two or more paragraphs within `limit`, and each cut made
      where the next paragraph would have overflowed. */
  lemma ChunkTextIs(md: string, limit: int)
    ensures |md| <= limit ==> ChunkText(md, limit) == [md]
    ensures |md| > limit ==>
      var gs := Groups(Pieces(md), limit);
      && ChunkText(md, limit) == Chunks(gs)
      && |gs| >= 1
      && (forall k :: 0 <= k < |gs| ==> gs[k] != [] && Fits(gs[k], limit))
      && Flatten(gs) == Pieces(md)
      && Concat(seq(|gs|, k requires 0 <= k < |gs| => Concat(gs[k]))) == md + "\n\n"
      && (forall k :: 0 < k < |gs| ==> CutBefore(gs, k, limit))
  {
    if |md| > limit {
      var ps := Pieces(md);
      var gs := Groups(ps, limit);
      PiecesCover(md);
      GroupsNonEmpty(ps, limit);
      GroupsFlatten(ps, limit);
      GroupsFit(ps, limit);
      GroupsCut(ps, limit);
      ConcatFlatten(gs);
    }
  }

  /** A chunk made of two or more paragraphs is at most `limit` long. */
  lemma ChunkFits(gs: seq<seq<string>>, k: int, limit: int)
    requires 0 <= k < |gs| && Fits(gs[k], limit) && |gs[k]| >= 2
    ensures |Chunks(gs)[k]| <= limit
  {
  }
}
