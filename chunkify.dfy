/** Robert/scripts/chunkify_discours.py: it cuts a recording of length
    01:24:02 into 30-second chunks, producing one `ffmpeg` command per chunk
    with the chunk's start time as hours, minutes and seconds, and stops after
    the first chunk whose start time reaches the length component by
    component. The command text itself is left out; a command is its chunk
    number and start time. */
module Chunkify {

  datatype Timestamp = Timestamp(hours: nat, minutes: nat, seconds: nat)

  /** The command emitted for one chunk. */
  datatype Command = Command(chunk: nat, start: Timestamp)

  /** The recording length the script stops at. */
  const Total := Timestamp(1, 24, 2)

  /** The number of iterations of the script's `for` loop. */
  const MaxChunks := 10000

  function InSeconds(t: Timestamp): nat {
    3600 * t.hours + 60 * t.minutes + t.seconds
  }

  /** The start time of a chunk: even chunks start on a whole minute, odd
      ones half a minute later; minutes wrap into hours. */
  function ChunkTime(chunk: nat): (t: Timestamp)
    ensures InSeconds(t) == 30 * chunk
    ensures t.minutes < 60
    ensures t.seconds == 0 || t.seconds == 30
    ensures t.seconds == 0 <==> chunk % 2 == 0
  {
    var seconds := if chunk % 2 == 0 then 0 else 30;
    var minutes := chunk / 2;
    Timestamp(minutes / 60, minutes % 60, seconds)
  }

  /** The stop test: each component at least the length's component. */
  predicate Stop(t: Timestamp) {
    t.hours >= Total.hours && t.minutes >= Total.minutes && t.seconds >= Total.seconds
  }

  /** Since seconds are 0 or 30 and the length has 2 seconds, only chunks with
      30 seconds, the odd ones, can stop the loop. */
  lemma StopOnlyOnOddChunks(chunk: nat)
    requires Stop(ChunkTime(chunk))
    ensures chunk % 2 == 1
  {
  }

  /** The first chunk that stops the loop is 169, starting at 01:24:30. */
  lemma FirstStopIs169(chunk: nat)
    ensures chunk < 169 ==> !Stop(ChunkTime(chunk))
    ensures ChunkTime(169) == Timestamp(1, 24, 30) && Stop(ChunkTime(169))
  {
    if chunk < 169 && chunk % 2 == 1 && chunk / 2 >= 60 {
      assert chunk / 2 <= 83;
      assert (chunk / 2) / 60 == 1;
      assert (chunk / 2) % 60 == chunk / 2 - 60;
    }
  }

  /** The script's loop: one command per chunk from 0 on, ending with the
      first chunk that meets the stop test, and never more than 10000. */
  method Chunkify() returns (commands: seq<Command>)
    ensures |commands| <= MaxChunks
    ensures forall i :: 0 <= i < |commands| ==> commands[i] == Command(i, ChunkTime(i))
    ensures forall i :: 0 <= i < |commands| - 1 ==> !Stop(commands[i].start)
    ensures |commands| == 170 && Stop(commands[169].start)
  {
    commands := [];
    var chunk := 0;
    while chunk < MaxChunks
      invariant 0 <= chunk <= 169 && |commands| == chunk
      invariant forall i :: 0 <= i < chunk ==> commands[i] == Command(i, ChunkTime(i))
      invariant forall i :: 0 <= i < chunk ==> !Stop(commands[i].start)
    {
      var seconds := if chunk % 2 == 0 then 0 else 30;
      var minutes := chunk / 2;
      var hours := minutes / 60;
      minutes := minutes % 60;
      commands := commands + [Command(chunk, Timestamp(hours, minutes, seconds))];
      FirstStopIs169(chunk);
      if hours >= Total.hours && minutes >= Total.minutes && seconds >= Total.seconds {
        return;
      }
      chunk := chunk + 1;
    }
    assert false;
  }

  /** Comparing component by component is not comparing times: a length of
      00:00:45 would never be reached by a start whose seconds are 0 or 30,
      although chunk 2 starts at 00:01:00, later than that. */
  lemma ComponentwiseIsNotTimeOrder()
    ensures var len := Timestamp(0, 0, 45);
      var t := ChunkTime(2);
      InSeconds(t) >= InSeconds(len)
      && !(t.hours >= len.hours && t.minutes >= len.minutes && t.seconds >= len.seconds)
  {
  }
}
