/** Names in the message buffer: the thread of a channel and the key of a list. */
module WsBuffer {
  import opened Wrappers
  import opened JoinedKeys

  // ---- the thread of a channel ----

  /** What follows the first colon of the channel, if there is anything. */
  method ThreadKey(channel: string) returns (key: Option<string>)
    ensures key.Some? ==> key.value != "" && exists prefix ::
      ':' !in prefix && channel == prefix + ":" + key.value
    ensures key.None? ==> forall prefix, rest :: ':' !in prefix && channel == prefix + ":" + rest ==> rest == ""
  {
    var i := 0;
    while i < |channel| && channel[i] != ':'
      invariant 0 <= i <= |channel|
      invariant ':' !in channel[..i]
    {
      i := i + 1;
    }
    if i < |channel| && i + 1 < |channel| {
      key := Some(channel[i + 1..]);
      assert channel == channel[..i] + ":" + channel[i + 1..];
    } else {
      key := None;
      forall prefix, rest | ':' !in prefix && channel == prefix + ":" + rest
        ensures rest == ""
      {
        FirstColon(channel, prefix, rest, i);
      }
    }
  }

  lemma FirstColon(channel: string, prefix: string, rest: string, i: nat)
    requires channel == prefix + ":" + rest && ':' !in prefix
    requires i <= |channel| && ':' !in channel[..i] && (i < |channel| ==> channel[i] == ':')
    ensures |prefix| == i && |rest| == |channel| - i - 1
  {
    assert channel[|prefix|] == ':';
    assert forall j :: 0 <= j < |prefix| ==> channel[j] == prefix[j];
    assert forall j :: 0 <= j < i ==> channel[..i][j] == channel[j];
  }

  // ---- the key of a list ----

  function BufferKey(user: string, thread: string): string {
    "pending_ws_messages:" + Join(user, ':', thread)
  }

  /** Two users can meet in one list. */
  ghost predicate CanCollide(u: string, v: string) {
    exists t, w :: t != "" && w != "" && BufferKey(u, t) == BufferKey(v, w)
  }

  lemma KeyTail(u: string, t: string, v: string, w: string)
    ensures BufferKey(u, t) == BufferKey(v, w) <==> Join(u, ':', t) == Join(v, ':', w)
  {
    var head := "pending_ws_messages:";
    assert BufferKey(u, t)[|head|..] == Join(u, ':', t);
    assert BufferKey(v, w)[|head|..] == Join(v, ':', w);
  }

  /** Within one user the thread decides the list. */
  lemma ThreadsAreSeparate(u: string, t: string, w: string)
    ensures BufferKey(u, t) == BufferKey(u, w) <==> t == w
  {
    KeyTail(u, t, u, w);
    SameOwner(u, ':', t, w);
  }

  /** Different users share a list for some threads exactly when one id begins
      with the other followed by a colon. */
  lemma UsersCollideExactly(u: string, v: string)
    requires u != v
    ensures CanCollide(u, v) <==> u + ":" <= v || v + ":" <= u
  {
    forall t, w ensures BufferKey(u, t) == BufferKey(v, w) <==> Join(u, ':', t) == Join(v, ':', w) {
      KeyTail(u, t, v, w);
    }
    MeetExactly(u, v, ':');
  }
}
