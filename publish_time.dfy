/** The publish time of a blog post as the blog editor (src/components/Admin/BlogManager.tsx)
    shows it in its form and reads it back on saving. */
module PublishTime {
  import opened Js

  /** Instants are milliseconds since the epoch. A `YYYY-MM-DDTHH:mm` string names a wall-clock
      minute, written here as the instant that wall clock shows in UTC. `offset` is the browser's
      local time minus UTC in minutes, taken as fixed. */
  const MsPerMinute := 60000

  /** `new Date(t).toISOString().slice(0, 16)`: the UTC wall clock of `t`, to the minute. */
  function UtcMinute(t: int): int {
    t - t % MsPerMinute
  }

  /** `new Date(w)` for a date-time string without a zone: the wall clock is read as local
      time. */
  function ParseLocal(w: int, offset: int): int {
    w - offset * MsPerMinute
  }

  /** The publish time after opening a post in the editor and saving it unchanged, as written:
      the form shows the UTC wall clock and saving reads it back as local time. A new post's
      default publish time goes through the same two steps. */
  function ResavedAsWritten(t: int, offset: int): int {
    ParseLocal(UtcMinute(t), offset)
  }

  /** Outside UTC every unchanged save moves the post by the offset again, so the moves add up:
      10:00 UTC on 1 January 2024, saved twice from a browser two hours ahead of UTC, becomes
      06:00 UTC. */
  lemma ResaveMovesPublishTime(t: int, offset: int)
    ensures ResavedAsWritten(ResavedAsWritten(t, offset), offset) == UtcMinute(t) - 2 * offset * MsPerMinute
    ensures ResavedAsWritten(ResavedAsWritten(t, offset), offset) == ResavedAsWritten(t, offset) <==> offset == 0
    ensures ResavedAsWritten(1704103200000, 120) == 1704096000000
    ensures ResavedAsWritten(ResavedAsWritten(1704103200000, 120), 120) == 1704088800000
  {
    var u := UtcMinute(t);
    var r := u - offset * MsPerMinute;
    assert u % MsPerMinute == 0 by {
      assert u == (t / MsPerMinute) * MsPerMinute;
    }
    assert r % MsPerMinute == 0 by {
      assert r == (t / MsPerMinute - offset) * MsPerMinute;
    }
  }

  /** The local wall clock of `t`, to the minute, as a `datetime-local` input expects. */
  function LocalMinute(t: int, offset: int): int {
    UtcMinute(t + offset * MsPerMinute)
  }

  /** The publish time after an unchanged save when the form shows the local wall clock. */
  function Resaved(t: int, offset: int): int {
    ParseLocal(LocalMinute(t, offset), offset)
  }

  /** The browser's date conversions the editor relies on: `iso(t)` is
      `new Date(t).toISOString()`, and `wall(s)` the wall-clock minute a `YYYY-MM-DDTHH:mm`
      string names (as the instant that wall clock shows in UTC), `None` when it names none. */
  datatype DateCodec = DateCodec(iso: int -> string, wall: string -> Option<int>)

  /** Saving unchanged keeps the publish time up to its seconds, whatever the offset, and a
      second unchanged save changes nothing more. */
  lemma ResaveKeepsPublishTime(t: int, offset: int)
    ensures Resaved(t, offset) == UtcMinute(t)
    ensures Resaved(Resaved(t, offset), offset) == Resaved(t, offset)
  {
    var o := offset * MsPerMinute;
    assert (t + o) % MsPerMinute == t % MsPerMinute by {
      assert t + o == t + offset * MsPerMinute;
    }
    var u := UtcMinute(t);
    assert (u + o) % MsPerMinute == u % MsPerMinute by {
      assert u + o == u + offset * MsPerMinute;
    }
    assert u % MsPerMinute == 0 by {
      assert u == (t / MsPerMinute) * MsPerMinute;
    }
  }
}
