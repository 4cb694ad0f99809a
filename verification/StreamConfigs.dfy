/** Stream channel lists in the form of the interface and in the form of the driver:
    library/meids_internal.c, me_translate_config_to_simple and me_translate_config_to_universal. */
module StreamConfigs {
  import opened Defines

  const REF_AIO_DIFFERENTIAL := 0x70000001
  const REF_AIO_GROUND := 0x70000002
  const REF_AI_GROUND := 0x00050001
  const REF_AI_DIFFERENTIAL := 0x00050002
  const REF_AO_GROUND := 0x00060001
  const REF_AO_DIFFERENTIAL := 0x00060002

  /** A flag word: the bit ME_STREAM_CONFIG_DIFFERENTIAL (0x00100000) and the other bits. */
  datatype Flags = Flags(differential: bool, others: nat)

  /** meIOStreamConfig_t and meIOStreamSimpleConfig_t. */
  datatype LongConfig = LongConfig(channel: int, streamConfig: int, ref: int, flags: int)
  datatype SimpleConfig = SimpleConfig(channel: int, range: int)

  predicate AllowedRef(ref: int) {
    ref in {REF_AIO_GROUND, REF_AIO_DIFFERENTIAL, REF_AI_GROUND, REF_AI_DIFFERENTIAL, REF_AO_GROUND,
            REF_AO_DIFFERENTIAL}
  }

  predicate Differential(ref: int) {
    ref in {REF_AIO_DIFFERENTIAL, REF_AI_DIFFERENTIAL, REF_AO_DIFFERENTIAL}
  }

  predicate EntryAccepted(list: seq<LongConfig>, i: nat)
    requires i < |list|
  {
    AllowedRef(list[i].ref) && list[i].ref == list[0].ref && list[i].flags == 0
  }

  function SimpleOf(list: seq<LongConfig>): (r: seq<SimpleConfig>) {
    seq(|list|, i requires 0 <= i < |list| => SimpleConfig(list[i].channel, list[i].streamConfig))
  }

  function LongOf(list: seq<SimpleConfig>, flags: Flags): (r: seq<LongConfig>) {
    var ref := if flags.differential then REF_AIO_DIFFERENTIAL else REF_AIO_GROUND;
    seq(|list|, i requires 0 <= i < |list| => LongConfig(list[i].channel, list[i].range, ref, 0))
  }

  function FlagsFor(flags: Flags, ref: int): Flags {
    if Differential(ref) then flags.(differential := true) else flags
  }

  /** me_translate_config_to_simple: nothing is written to the list unless every entry is accepted. The reference of
      the first entry is looked at even when the list is empty. */
  method ToSimple(long: array<LongConfig>, count: nat, oldFlags: Flags, simple: array<SimpleConfig>)
    returns (err: int, flags: Flags)
    requires long.Length > 0 && count <= long.Length && count <= simple.Length
    modifies simple
    ensures err == ERRNO_SUCCESS <==> forall i :: 0 <= i < count ==> EntryAccepted(long[..], i)
    ensures err == ERRNO_SUCCESS ==>
            simple[..count] == SimpleOf(long[..count]) && flags == FlagsFor(oldFlags, long[0].ref)
    ensures simple[count..] == old(simple[count..])
    ensures err != ERRNO_SUCCESS ==> simple[..] == old(simple[..]) && flags == oldFlags
    ensures err != ERRNO_SUCCESS ==>
            exists i :: (0 <= i < count && !EntryAccepted(long[..], i)
                         && (forall j :: 0 <= j < i ==> EntryAccepted(long[..], j))
              && err == if AllowedRef(long[i].ref) && long[i].ref == long[0].ref then ERRNO_INVALID_FLAGS
                  else ERRNO_INVALID_REF)
  {
    flags := oldFlags;
    for i := 0 to count
      invariant forall j :: 0 <= j < i ==> EntryAccepted(long[..], j)
    {
      var ref := long[i].ref;
      if
        || ref == REF_AIO_GROUND || ref == REF_AIO_DIFFERENTIAL
        || ref == REF_AI_GROUND || ref == REF_AI_DIFFERENTIAL
        || ref == REF_AO_GROUND || ref == REF_AO_DIFFERENTIAL
      {
      } else {
        assert !EntryAccepted(long[..], i);
        return ERRNO_INVALID_REF, flags;
      }
      if long[0].ref != long[i].ref {
        assert !EntryAccepted(long[..], i);
        return ERRNO_INVALID_REF, flags;
      }
      if long[i].flags != 0 {
        assert !EntryAccepted(long[..], i);
        return ERRNO_INVALID_FLAGS, flags;
      }
    }
    for i := 0 to count
      invariant simple[..i] == SimpleOf(long[..i])
      invariant simple[count..] == old(simple[count..])
      invariant long[..] == old(long[..])
    {
      simple[i] := SimpleConfig(long[i].channel, long[i].streamConfig);
      assert simple[..i + 1] == simple[..i] + [simple[i]];
    }
    if long[0].ref == REF_AIO_DIFFERENTIAL || long[0].ref == REF_AI_DIFFERENTIAL || long[0].ref == REF_AO_DIFFERENTIAL {
      flags := flags.(differential := true);
    }
    err := ERRNO_SUCCESS;
  }

  /** me_translate_config_to_universal. */
  method ToUniversal(simple: array<SimpleConfig>, count: nat, flags: Flags, long: array<LongConfig>)
    returns (err: int, iFlags: Flags)
    requires count <= simple.Length && count <= long.Length
    modifies long
    ensures err == ERRNO_SUCCESS
    ensures long[..count] == LongOf(simple[..count], flags) && long[count..] == old(long[count..])
    ensures iFlags == flags.(differential := false)
  {
    for i := 0 to count
      invariant long[..i] == LongOf(simple[..i], flags)
      invariant long[count..] == old(long[count..])
    {
      long[i] := long[i].(flags := 0, channel := simple[i].channel, streamConfig := simple[i].range);
      if flags.differential {
        long[i] := long[i].(ref := REF_AIO_DIFFERENTIAL);
      } else {
        long[i] := long[i].(ref := REF_AIO_GROUND);
      }
      assert long[..i + 1] == long[..i] + [long[i]];
    }
    return ERRNO_SUCCESS, flags.(differential := false);
  }

  /** What to_universal writes is accepted by to_simple, which gives back the channels, the ranges and the flags. */
  lemma ConfigRoundTrip(list: seq<SimpleConfig>, flags: Flags)
    requires list != []
    ensures var long := LongOf(list, flags);
            && (forall i :: 0 <= i < |long| ==> EntryAccepted(long, i))
            && SimpleOf(long) == list
            && FlagsFor(flags.(differential := false), long[0].ref) == flags
  {
  }

  /** The other way round the references come back only if they are of the general kind; to_simple forgets which of
      the three kinds it was. */
  lemma ReferenceRoundTrip(list: seq<LongConfig>, flags: Flags, i: nat)
    requires i < |list| && forall k :: 0 <= k < |list| ==> EntryAccepted(list, k)
    requires !flags.differential
    ensures LongOf(SimpleOf(list), FlagsFor(flags, list[0].ref))[i] == list[i]
            <==> list[i].ref in {REF_AIO_GROUND, REF_AIO_DIFFERENTIAL}
    ensures FlagsFor(flags, list[0].ref).(differential := false) == flags
  {
    assert EntryAccepted(list, i) && EntryAccepted(list, 0);
  }

  // In the numbers of the interface.

  /** A list is accepted if all entries have the same reference, one of the six, and no flags. */
  lemma AcceptedInNumbers(list: seq<LongConfig>)
    ensures (forall i :: 0 <= i < |list| ==> EntryAccepted(list, i)) <==>
            forall i :: 0 <= i < |list| ==>
              && list[i].ref in {0x70000001, 0x70000002, 0x50001, 0x50002, 0x60001, 0x60002}
              && list[i].ref == list[0].ref && list[i].flags == 0
  {
    if forall i :: 0 <= i < |list| ==> EntryAccepted(list, i) {
      forall i | 0 <= i < |list|
        ensures list[i].ref in {0x70000001, 0x70000002, 0x50001, 0x50002, 0x60001, 0x60002}
        ensures list[i].ref == list[0].ref && list[i].flags == 0 {
        assert EntryAccepted(list, i);
      }
    }
  }

  /** The driver form of a list keeps channel and range of every entry; the flag word gets the differential bit with one
      of the three differential references, and never loses it. */
  lemma SimpleInNumbers(list: seq<LongConfig>, flags: Flags, ref: int)
    ensures |SimpleOf(list)| == |list|
    ensures forall i :: 0 <= i < |list| ==>
              SimpleOf(list)[i].channel == list[i].channel && SimpleOf(list)[i].range == list[i].streamConfig
    ensures FlagsFor(flags, ref).differential <==> flags.differential || ref in {0x70000001, 0x50002, 0x60002}
    ensures FlagsFor(flags, ref).others == flags.others
  {
  }

  lemma LongInNumbers(list: seq<SimpleConfig>, flags: Flags)
    ensures |LongOf(list, flags)| == |list|
    ensures forall i :: 0 <= i < |list| ==>
              && LongOf(list, flags)[i].channel == list[i].channel
              && LongOf(list, flags)[i].streamConfig == list[i].range
              && LongOf(list, flags)[i].flags == 0
              && LongOf(list, flags)[i].ref == if flags.differential then 0x70000001 else 0x70000002
  {
  }
}
