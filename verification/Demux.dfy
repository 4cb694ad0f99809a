/** Picking the samples of one channel out of a stream: meUtilityExtractValues (library/meids_global.c). */
module Demux {
  import opened Defines
  import opened Sequences
  import opened StreamConfigs

  /** An int that the caller passes a pointer to. */
  class IntCell {
    var value: int32

    constructor (v: int32)
      ensures value == v
    {
      value := v;
    }
  }

  /** The channel that sample number p was taken from: the list of channels is scanned over and over. */
  function ChannelAt(config: seq<LongConfig>, p: nat): int
    requires config != []
  {
    config[p % |config|].channel
  }

  /** The samples of a channel among the first p, in their order. */
  function Samples(data: seq<int>, config: seq<LongConfig>, channel: int, p: nat): (r: seq<int>)
    requires config != [] && p <= |data|
    ensures |r| <= p
  {
    if p == 0 then []
    else Samples(data, config, channel, p - 1) + if ChannelAt(config, p - 1) == channel then [data[p - 1]] else []
  }

  function AtMost(s: seq<int>, n: int): seq<int> {
    s[..if n < 0 then 0 else if n < |s| then n else |s|]
  }

  function NonNegative(n: int): nat {
    if n < 0 then 0 else n
  }

  /** The index i * n + j of the sample for entry j of scan i; for j = 0 the product of i and n. */
  function Position(i: nat, j: nat, n: nat): nat {
    i * n + j
  }

  lemma Positions(i: nat, j: nat, n: nat)
    requires n > 0
    ensures Position(0, 0, n) == 0
    ensures Position(i, j + 1, n) == Position(i, j, n) + 1
    ensures Position(i, n, n) == Position(i + 1, 0, n) > Position(i, 0, n) >= i
  {
    AtLeast(i, n);
    OneMore(i, n);
  }

  lemma AtLeast(i: nat, n: nat)
    requires n > 0
    ensures i * n >= i
  {
  }

  lemma OneMore(i: nat, n: nat)
    ensures (i + 1) * n == i * n + n
  {
  }

  lemma NextScan(i: nat, j: nat, n: nat)
    ensures Position(i + 1, j, n) == Position(i, j, n) + n
  {
    OneMore(i, n);
  }

  lemma NoScans(n: nat)
    ensures Position(0, 0, n) == 0
  {
  }

  lemma WithEntry(i: nat, j: nat, n: nat)
    ensures Position(i, j, n) == Position(i, 0, n) + j
  {
  }

  lemma {:induction false} LaterScan(i: nat, k: nat, n: nat)
    requires i < k
    ensures Position(k, 0, n) >= Position(i, 0, n) + n
    decreases k
  {
    hide Position;
    NextScan(k - 1, 0, n);
    if i == k - 1 {
    } else {
      LaterScan(i, k - 1, n);
    }
  }

  lemma Divided(x: nat, n: nat)
    requires n > 0
    ensures x == Position(x / n, x % n, n)
  {
  }

  /** An index belongs to one entry only. */
  lemma EntryOfPosition(i: nat, j: nat, n: nat)
    requires j < n
    ensures Position(i, j, n) % n == j
  {
    hide Position;
    var x := Position(i, j, n);
    Divided(x, n);
    WithEntry(i, j, n);
    WithEntry(x / n, x % n, n);
    if i < x / n {
      LaterScan(i, x / n, n);
    } else if x / n < i {
      LaterScan(x / n, i, n);
    }
  }

  lemma SamplesGrow(data: seq<int>, config: seq<LongConfig>, channel: int, p: nat, q: nat)
    requires config != [] && p <= q <= |data|
    ensures Samples(data, config, channel, p) <= Samples(data, config, channel, q)
  {
    if p == q {
    } else {
      SamplesGrow(data, config, channel, p, q - 1);
    }
  }

  /** meUtilityExtractValues. A capacity or a number of samples below zero counts as zero. No sum or product leaves the
      range of an int. */
  method ExtractValues(channel: int, data: array?<int>, dataCount: int32, config: seq<LongConfig>, configCount: int32,
                       out: array?<int>, outCount: IntCell?)
    returns (err: int)
    requires data != null ==> dataCount <= data.Length
    requires configCount <= |config|
    requires out != null && outCount != null ==> out != data && outCount.value <= out.Length
    modifies out, outCount
    ensures data == null || out == null || outCount == null ==> err == ERRNO_INVALID_POINTER
    ensures err == ERRNO_INVALID_POINTER ==>
            (out != null ==> out[..] == old(out[..])) && (outCount != null ==> outCount.value == old(outCount.value))
    ensures data != null && out != null && outCount != null ==>
            && err == ERRNO_SUCCESS
            && (configCount <= 0 ==> outCount.value == 0 && out[..] == old(out[..]))
            && (configCount > 0 ==>
                  var wanted := AtMost(Samples(data[..], config[..configCount], channel, NonNegative(dataCount)),
                                       old(outCount.value));
                  && outCount.value == |wanted|
                  && out[..] == wanted + old(out[|wanted|..]))
  {
    hide Position, Samples, InProgress, AtMost;
    if data == null || outCount == null || out == null {
      return ERRNO_INVALID_POINTER;
    }
    var i: int32, j: int32, k: int32 := 0, 0, 0;
    ghost var was, capacity, samples: seq<int>, list := out[..], outCount.value, data[..],
        config[..NonNegative(configCount)];
    if configCount > 0 {
      Positions(0, 0, configCount);
      Start(channel, samples, dataCount, list, capacity, was);
    }
    while configCount > 0
      invariant 0 <= i && 0 <= k && outCount.value == capacity && data[..] == samples
      invariant configCount > 0 ==> i <= Position(i, 0, configCount) <= NonNegative(dataCount)
      invariant if configCount <= 0 then out[..] == was else
                  InProgress(channel, samples, dataCount, list, Position(i, 0, configCount), capacity, k, was, out[..])
      decreases if configCount <= 0 then 0 else dataCount - Position(i, 0, configCount)
    {
      j := 0;
      while j < configCount
        invariant 0 <= j <= configCount && 0 <= k && outCount.value == capacity && data[..] == samples
        invariant Position(i, j, configCount) <= NonNegative(dataCount)
        invariant j > 0 ==> Position(i, 0, configCount) < dataCount
        invariant InProgress(channel, samples, dataCount, list, Position(i, j, configCount), capacity, k, was, out[..])
      {
        var p: int32 := Position(i, j, configCount);
        if k >= outCount.value || p >= dataCount {
          Finish(channel, samples, dataCount, list, p, capacity, k, was, out[..]);
          outCount.value := k;
          return ERRNO_SUCCESS;
        }
        Positions(i, j, configCount);
        EntryOfPosition(i, j, configCount);
        Step(channel, samples, dataCount, list, p, capacity, k, was, out[..]);
        if config[j].channel == channel {
          out[k] := data[p];
          k := k + 1;
        }
        j := j + 1;
      }
      Positions(i, 0, configCount);
      i := i + 1;
    }
    outCount.value := 0;
    return ERRNO_SUCCESS;
  }

  /** k samples are taken out of the first p. */
  ghost predicate InProgress(channel: int, data: seq<int>, dataCount: int, config: seq<LongConfig>, p: int,
                             capacity: int, k: int,
                             was: seq<int>, out: seq<int>)
    requires config != []
  {
    && 0 <= p <= NonNegative(dataCount) && p <= |data|
    && k == |Samples(data, config, channel, p)| <= NonNegative(capacity) && k <= |was|
    && out == Samples(data, config, channel, p) + was[k..]
  }

  lemma Start(channel: int, data: seq<int>, dataCount: int, config: seq<LongConfig>, capacity: int, was: seq<int>)
    requires config != []
    ensures InProgress(channel, data, dataCount, config, 0, capacity, 0, was, was)
  {
  }

  lemma Step(channel: int, data: seq<int>, dataCount: int, config: seq<LongConfig>, p: int, capacity: int, k: int,
             was: seq<int>, out: seq<int>)
    requires config != [] && InProgress(channel, data, dataCount, config, p, capacity, k, was, out)
    requires k < capacity <= |was| && p < dataCount <= |data|
    ensures k < |out| == |was|
    ensures if ChannelAt(config, p) == channel
            then InProgress(channel, data, dataCount, config, p + 1, capacity, k + 1, was, out[k := data[p]])
            else InProgress(channel, data, dataCount, config, p + 1, capacity, k, was, out)
  {
  }

  lemma Finish(channel: int, data: seq<int>, dataCount: int, config: seq<LongConfig>, p: int, capacity: int, k: int,
               was: seq<int>, out: seq<int>)
    requires config != [] && InProgress(channel, data, dataCount, config, p, capacity, k, was, out)
    requires (k >= capacity || p >= dataCount) && dataCount <= |data|
    ensures var wanted := AtMost(Samples(data, config, channel, NonNegative(dataCount)), capacity);
            k == |wanted| && out == wanted + was[k..]
  {
    SamplesGrow(data, config, channel, p, NonNegative(dataCount));
  }

  // What the channels hold together.

  /** Sample p of the buffer is the n-th of its channel, n being the number of samples of this channel before it. */
  lemma SampleIsKept(data: seq<int>, config: seq<LongConfig>, p: nat, count: nat)
    requires config != [] && p < count <= |data|
    ensures var channel := ChannelAt(config, p); var before := |Samples(data, config, channel, p)|;
            before < |Samples(data, config, channel, count)| && Samples(data, config, channel, count)[before] == data[p]
  {
    SamplesGrow(data, config, ChannelAt(config, p), p + 1, count);
  }

  /** The samples of several channels, one channel after the other. */
  function Together(data: seq<int>, config: seq<LongConfig>, channels: seq<int>, p: nat): (r: seq<int>)
    requires config != [] && p <= |data|
  {
    if channels == [] then []
    else Samples(data, config, channels[0], p) + Together(data, config, channels[1..], p)
  }

  function Lengths(data: seq<int>, config: seq<LongConfig>, channels: seq<int>, p: nat): int
    requires config != [] && p <= |data|
  {
    if channels == [] then 0 else |Samples(data, config, channels[0], p)| + Lengths(data, config, channels[1..], p)
  }

  lemma {:induction false} TogetherStep(data: seq<int>, config: seq<LongConfig>, channels: seq<int>, p: nat)
    requires config != [] && p < |data| && NoTwice(channels)
    ensures multiset(Together(data, config, channels, p + 1)) == multiset(Together(data, config, channels, p))
              + if ChannelAt(config, p) in channels then multiset{data[p]} else multiset{}
  {
    if channels == [] {
    } else {
      TogetherStep(data, config, channels[1..], p);
    }
  }

  lemma {:induction false} LengthOfTogether(data: seq<int>, config: seq<LongConfig>, channels: seq<int>, p: nat)
    requires config != [] && p <= |data|
    ensures |Together(data, config, channels, p)| == Lengths(data, config, channels, p)
  {
    if channels == [] {
    } else {
      LengthOfTogether(data, config, channels[1..], p);
    }
  }

  lemma {:induction false} NothingTogether(data: seq<int>, config: seq<LongConfig>, channels: seq<int>)
    requires config != []
    ensures Together(data, config, channels, 0) == []
  {
    if channels == [] {
    } else {
      NothingTogether(data, config, channels[1..]);
    }
  }

  /** Extracting every configured channel once splits the buffer: nothing is lost and nothing is doubled, and the
      counts add up to the number of samples. */
  lemma {:induction false} ChannelsPartition(data: seq<int>, config: seq<LongConfig>, channels: seq<int>, p: nat)
    requires config != [] && p <= |data| && NoTwice(channels)
    requires forall i :: 0 <= i < |config| ==> config[i].channel in channels
    ensures multiset(Together(data, config, channels, p)) == multiset(data[..p])
    ensures Lengths(data, config, channels, p) == p
  {
    hide Together, Lengths, Samples, NoTwice;
    if p == 0 {
      NothingTogether(data, config, channels);
    } else {
      ChannelsPartition(data, config, channels, p - 1);
      TogetherStep(data, config, channels, p - 1);
      assert data[..p] == data[..p - 1] + [data[p - 1]];
    }
    LengthOfTogether(data, config, channels, p);
    SameLength(Together(data, config, channels, p), data[..p]);
  }

  lemma SameLength(a: seq<int>, b: seq<int>)
    requires multiset(a) == multiset(b)
    ensures |a| == |b|
  {
    assert |multiset(a)| == |a|;
  }

  // Whole scans.

  function Occurrences(config: seq<LongConfig>, channel: int): nat {
    if config == [] then 0
    else Occurrences(config[..|config| - 1], channel) + if config[|config| - 1].channel == channel then 1 else 0
  }

  lemma {:induction false} SamplesInScan(data: seq<int>, config: seq<LongConfig>, channel: int, i: nat, j: nat)
    requires config != [] && j <= |config| && Position(i, j, |config|) <= |data|
    requires Position(i, 0, |config|) <= Position(i, j, |config|)
    ensures |Samples(data, config, channel, Position(i, j, |config|))|
         == |Samples(data, config, channel, Position(i, 0, |config|))| + Occurrences(config[..j], channel)
  {
    hide Position;
    if j == 0 {
    } else {
      Positions(i, j - 1, |config|);
      EntryOfPosition(i, j - 1, |config|);
      PositionsGrow(i, j - 1, |config|);
      SamplesInScan(data, config, channel, i, j - 1);
      assert config[..j][..j - 1] == config[..j - 1];
    }
  }

  lemma PositionsGrow(i: nat, j: nat, n: nat)
    ensures Position(i, 0, n) <= Position(i, j, n)
  {
  }

  lemma {:induction false} SamplesInScans(data: seq<int>, config: seq<LongConfig>, channel: int, i: nat)
    requires config != [] && Position(i, 0, |config|) <= |data|
    ensures |Samples(data, config, channel, Position(i, 0, |config|))| == Position(i, 0, Occurrences(config, channel))
  {
    hide Position, Occurrences;
    if i == 0 {
      NoScans(|config|);
      NoScans(Occurrences(config, channel));
    } else {
      Positions(i - 1, 0, |config|);
      SamplesInScans(data, config, channel, i - 1);
      SamplesInScan(data, config, channel, i - 1, |config|);
      assert config[..|config|] == config;
      NextScan(i - 1, 0, Occurrences(config, channel));
    }
  }

  /** Every whole scan adds as many samples of a channel as the channel is listed. */
  lemma WholeScans(data: seq<int>, config: seq<LongConfig>, channel: int, i: nat)
    requires config != [] && i * |config| <= |data|
    ensures |Samples(data, config, channel, i * |config|)| == i * Occurrences(config, channel)
  {
    SamplesInScans(data, config, channel, i);
  }

  // By their places in the buffer.

  /** The places of the samples of a channel: those whose number modulo the length of the list leads to an entry of the
      channel, in ascending order. */
  function Places(config: seq<LongConfig>, channel: int, p: nat): seq<nat>
    requires config != []
  {
    if p == 0 then []
    else Places(config, channel, p - 1) + if ChannelAt(config, p - 1) == channel then [p - 1] else []
  }

  lemma PlacesExactly(config: seq<LongConfig>, channel: int, p: nat)
    requires config != []
    ensures forall q :: q in Places(config, channel, p) <==> 0 <= q < p && config[q % |config|].channel == channel
    ensures forall i, j :: 0 <= i < j < |Places(config, channel, p)| ==>
              Places(config, channel, p)[i] < Places(config, channel, p)[j]
  {
    hide ChannelAt;
    PlacesAscend(config, channel, p);
    forall q ensures q in Places(config, channel, p) <==> 0 <= q < p && config[q % |config|].channel == channel {
      if 0 <= q {
        EntryAt(config, q);
      }
    }
  }

  lemma EntryAt(config: seq<LongConfig>, q: nat)
    requires config != []
    ensures ChannelAt(config, q) == config[q % |config|].channel
  {
  }

  lemma {:induction false} PlacesAscend(config: seq<LongConfig>, channel: int, p: nat)
    requires config != []
    ensures forall q :: q in Places(config, channel, p) <==> 0 <= q < p && ChannelAt(config, q) == channel
    ensures forall i, j :: 0 <= i < j < |Places(config, channel, p)| ==>
              Places(config, channel, p)[i] < Places(config, channel, p)[j]
  {
    hide ChannelAt;
    if p == 0 {
    } else {
      PlacesAscend(config, channel, p - 1);
      var before := Places(config, channel, p - 1);
      forall j | 0 <= j < |before| ensures before[j] < p - 1 {
        assert before[j] in before;
      }
    }
  }

  /** The samples of a channel are those at these places, in their order. */
  lemma {:induction false} SamplesAtPlaces(data: seq<int>, config: seq<LongConfig>, channel: int, p: nat, i: nat)
    requires config != [] && p <= |data|
    ensures |Samples(data, config, channel, p)| == |Places(config, channel, p)|
    ensures i < |Places(config, channel, p)| ==>
              Places(config, channel, p)[i] < p
              && Samples(data, config, channel, p)[i] == data[Places(config, channel, p)[i]]
  {
    if p == 0 {
    } else {
      SamplesAtPlaces(data, config, channel, p - 1, i);
    }
  }

  /** Of these, the first ones are delivered, as many as there is room for. */
  lemma RoomInNumbers(s: seq<int>, room: int)
    ensures |AtMost(s, room)| == if room < 0 then 0 else if room < |s| then room else |s|
    ensures forall i :: 0 <= i < |AtMost(s, room)| ==> AtMost(s, room)[i] == s[i]
    ensures NonNegative(room) == if room < 0 then 0 else room
  {
  }
}
