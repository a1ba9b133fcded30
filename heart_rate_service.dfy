/** HeartRate/HeartRateService.cs: decoding a Heart Rate Measurement
    notification (characteristic 0x2A37, section 3.1 of the Bluetooth Heart
    Rate Service specification) and the dispose state of the service wrapper.
    Device discovery, the GATT calls and AsyncResult are abstract outcomes. */
module HeartRateService {
  import opened Wrappers
  import opened Exceptions
  import opened HeartRateData
  import opened Extensions

  /** The arguments of one HeartRateUpdated(status, bpm) event. */
  datatype Measurement = Measurement(status: ContactSensorStatus, bpm: int)

  /** Bit 0 of the flags byte: the BPM field is 16 bits wide. */
  predicate IsShort(flags: bv8) {
    flags & 1 == 1
  }

  /** Bits 1-2 of the flags byte as a contact status. */
  function StatusBits(flags: bv8): ContactSensorStatus {
    StatusFromOrdinal(((flags >> 1) & 3) as int)
  }

  lemma ShiftRightOne(flags: bv8)
    ensures (flags >> 1) as int == flags as int / 2
  {
  }

  lemma LowTwoBits(y: bv8)
    ensures (y & 3) as int == y as int % 4
  {
  }

  /** The bit tests on the flags byte as arithmetic on its value. */
  lemma FlagBits(flags: bv8)
    ensures IsShort(flags) <==> flags as int % 2 == 1
    ensures StatusOrdinal(StatusBits(flags)) == (flags as int / 2) % 4
  {
    ShiftRightOne(flags);
    LowTwoBits(flags >> 1);
  }

  /** Bytes the notification must hold: flags plus a one- or two-byte BPM. */
  function MinLength(flags: bv8): nat {
    if IsShort(flags) then 3 else 2
  }

  /** The byte order a WinRT DataReader reads multi-byte values in. */
  datatype ByteOrder = LittleEndian | BigEndian

  /** HeartRate_ValueChanged with its DataReader in the given byte order: the
      event raised for one notification value, or None when it raises none.
      The BPM is read whenever the buffer is longer than one byte (always,
      once the length check passed); trailing fields are not read. */
  function DecodeIn(order: ByteOrder, value: seq<bv8>): (r: Option<Measurement>)
    ensures |value| == 0 ==> r.None?
    ensures |value| > 0 ==> (r.Some? <==> |value| >= MinLength(value[0]))
    ensures r.Some? ==> StatusOrdinal(r.value.status) == (value[0] as int / 2) % 4
    ensures r.Some? && value[0] as int % 2 == 0 ==> r.value.bpm == value[1] as int
    ensures r.Some? && value[0] as int % 2 == 1 ==>
      r.value.bpm == if order == LittleEndian then value[1] as int + 256 * value[2] as int
                     else 256 * value[1] as int + value[2] as int
    ensures r.Some? ==> 0 <= r.value.bpm < 0x1_0000
  {
    if |value| == 0 then None
    else
      var flags := value[0];
      FlagBits(flags);
      var isshort := IsShort(flags);
      var contactSensor := StatusBits(flags);
      var minLength := if isshort then 3 else 2;
      if |value| < minLength then None
      else
        var bpm :=
          if |value| > 1 then
            (if !isshort then value[1] as int
             else if order == LittleEndian then UInt16Of(ByteAt(value, 1), ByteAt(value, 2))
             else UInt16Of(ByteAt(value, 2), ByteAt(value, 1)))
          else -1;
        Some(Measurement(contactSensor, bpm))
  }

  /** The decoder as the Heart Rate Service defines the field: the 16-bit
      BPM with its first byte low. The rest of the model uses this one. */
  function Decode(value: seq<bv8>): (r: Option<Measurement>)
    ensures |value| == 0 ==> r.None?
    ensures |value| > 0 ==> (r.Some? <==> |value| >= MinLength(value[0]))
    ensures r.Some? ==> StatusOrdinal(r.value.status) == (value[0] as int / 2) % 4
    ensures r.Some? && value[0] as int % 2 == 0 ==> r.value.bpm == value[1] as int
    ensures r.Some? && value[0] as int % 2 == 1 ==> r.value.bpm == value[1] as int + 256 * value[2] as int
    ensures r.Some? ==> 0 <= r.value.bpm < 0x1_0000
  {
    DecodeIn(LittleEndian, value)
  }

  /** As written, the reader keeps DataReader's default byte order,
      BigEndian: a strap sending 60 BPM in the 16-bit form, [0x01, 0x3C,
      0x00], is read as 0x3C00 = 15360, and the repository's test buffer
      [1, 1, 2] as 0x0102 rather than 0x0201. */
  lemma BigEndianMisreads()
    ensures DecodeIn(BigEndian, [0x01, 0x3C, 0x00]) == Some(Measurement(NotSupported, 15360))
    ensures Decode([0x01, 0x3C, 0x00]) == Some(Measurement(NotSupported, 60))
    ensures DecodeIn(BigEndian, [0x01, 0x01, 0x02]) == Some(Measurement(NotSupported, 0x0102))
  {
    FlagBits(0x01);
  }

  /** The two byte orders read the same 16-bit BPM exactly when its two
      bytes are equal. */
  lemma ByteOrdersAgree(status: ContactSensorStatus, first: bv8, second: bv8)
    ensures var value := [EncodeFlags(status, true), first, second];
      DecodeIn(BigEndian, value) == Decode(value) <==> first == second
  {
    var value := [EncodeFlags(status, true), first, second];
    EncodeFlagsBits(status, true);
    FlagBits(value[0]);
  }

  /** The flags byte with the given status and BPM width. */
  function EncodeFlags(status: ContactSensorStatus, wide: bool): bv8 {
    var s: bv8 := match status
      case NotSupported => 0
      case NotSupported2 => 2
      case NoContact => 4
      case Contact => 6;
    if wide then s | 1 else s
  }

  lemma EncodeFlagsBits(status: ContactSensorStatus, wide: bool)
    ensures IsShort(EncodeFlags(status, wide)) == wide
    ensures StatusBits(EncodeFlags(status, wide)) == status
  {
  }

  /** A notification with the given status and a 16-bit BPM, written in one
      byte or, when wide, in two with the low byte first. */
  function Encode(status: ContactSensorStatus, bpm: bv16, wide: bool): (value: seq<bv8>)
    requires wide || bpm < 0x100
    ensures |value| == if wide then 3 else 2
  {
    var flags := EncodeFlags(status, wide);
    if wide then [flags, (bpm & 0xFF) as bv8, (bpm >> 8) as bv8]
    else [flags, bpm as bv8]
  }

  /** The two bytes of a 16-bit value, low byte first, read back as it. */
  lemma SplitWord(w: bv16)
    ensures UInt16Of(Byte((w & 0xFF) as bv8), Byte((w >> 8) as bv8)) == w as int
  {
    assert Word(Byte((w & 0xFF) as bv8), Byte((w >> 8) as bv8)) == w as bv32;
    assert (w as bv32) as int == w as int;
  }

  lemma NarrowByte(w: bv16)
    requires w < 0x100
    ensures (w as bv8) as int == w as int
  {
    assert (w as bv8) as bv16 == w;
  }

  /** Decoding an encoded measurement gives its status and BPM back,
      whatever fields follow. */
  lemma DecodeEncode(status: ContactSensorStatus, bpm: bv16, wide: bool, trailing: seq<bv8>)
    requires wide || bpm < 0x100
    ensures Decode(Encode(status, bpm, wide) + trailing) == Some(Measurement(status, bpm as int))
  {
    var value := Encode(status, bpm, wide) + trailing;
    EncodeFlagsBits(status, wide);
    assert value[0] == EncodeFlags(status, wide);
    if wide {
      SplitWord(bpm);
      assert ByteAt(value, 1) == Byte((bpm & 0xFF) as bv8) && ByteAt(value, 2) == Byte((bpm >> 8) as bv8);
    } else {
      NarrowByte(bpm);
    }
  }

  /** Only the flags byte and the BPM field matter: anything after them,
      energy expended or RR intervals, leaves the event unchanged. */
  lemma TrailingIgnored(value: seq<bv8>, trailing: seq<bv8>)
    requires |value| > 0 && |value| >= MinLength(value[0])
    ensures Decode(value + trailing) == Decode(value)
  {
    var v := value + trailing;
    assert v[0] == value[0] && v[1] == value[1];
    if IsShort(value[0]) {
      assert v[2] == value[2];
    }
  }

  /** The decoder's cases from the repository's tests: nothing for an empty
      buffer, for a 16-bit flag with one byte, for an 8-bit flag with none;
      0x0201 from [1, 1, 2] and 0x12 from [0, 0x12]. */
  lemma TestVectors()
    ensures Decode([]) == None
    ensures Decode([0x01, 0x12]) == None
    ensures Decode([0x00]) == None
    ensures Decode([0x01, 0x01, 0x02]) == Some(Measurement(NotSupported, 0x0201))
    ensures Decode([0x00, 0x12]) == Some(Measurement(NotSupported, 0x12))
  {
    FlagBits(0x01);
    FlagBits(0x00);
  }

  /** HeartRateService: the dispose flag, the current GATT service (services
      are numbered in the order they are opened), the services disposed so far
      and the HeartRateUpdated events raised. */
  class HeartRateService {
    var isDisposed: bool
    var service: Option<nat>
    var openCount: nat
    var disposedServices: seq<nat>
    var updates: seq<Measurement>

    /** Each service object is disposed at most once, and the current one not yet. */
    predicate Valid()
      reads this
    {
      && (forall i, j :: 0 <= i < j < |disposedServices| ==> disposedServices[i] != disposedServices[j])
      && (forall i :: 0 <= i < |disposedServices| ==> disposedServices[i] < openCount)
      && (service.Some? ==> service.value < openCount && service.value !in disposedServices)
    }

    constructor ()
      ensures Valid()
      ensures !isDisposed && service == None && openCount == 0 && disposedServices == [] && updates == []
    {
      isDisposed := false;
      service := None;
      openCount := 0;
      disposedServices := [];
      updates := [];
    }

    /** HeartRate_ValueChanged: raise the decoded event, if any. */
    method ValueChanged(value: seq<bv8>)
      modifies this
      ensures updates == old(updates) + (if Decode(value).Some? then [Decode(value).value] else [])
      ensures isDisposed == old(isDisposed) && service == old(service)
      ensures openCount == old(openCount) && disposedServices == old(disposedServices)
    {
      var m := Decode(value);
      if m.Some? {
        updates := updates + [m.value];
      }
    }

    /** Cleanup: take the service out of the field and dispose it; a failing
        Dispose is swallowed. */
    method Cleanup()
      requires Valid()
      modifies this
      ensures Valid()
      ensures service == None
      ensures disposedServices == old(disposedServices) + (if old(service).Some? then [old(service).value] else [])
      ensures isDisposed == old(isDisposed) && openCount == old(openCount) && updates == old(updates)
    {
      var s := service;
      service := None;
      if s.Some? {
        disposedServices := disposedServices + [s.value];
      }
    }

    /** Dispose: set the flag, then clean up. */
    method Dispose()
      requires Valid()
      modifies this
      ensures Valid()
      ensures isDisposed && service == None
      ensures disposedServices == old(disposedServices) + (if old(service).Some? then [old(service).value] else [])
      ensures openCount == old(openCount) && updates == old(updates)
    {
      isDisposed := true;
      Cleanup();
    }

    /** InitiateDefault with the outcomes of the calls it makes: whether a
        device was found, whether opening its service returned, whether the
        measurement characteristic exists, and whether enabling notifications
        returned. */
    method InitiateDefault(deviceFound: bool, open: Outcome<Exception>,
                           characteristicFound: bool, configure: Outcome<Exception>)
      returns (o: Outcome<Exception>)
      requires Valid()
      modifies this
      ensures Valid()
      ensures !deviceFound ==> o == Fail(ArgumentOutOfRangeException)
      ensures deviceFound && old(isDisposed) ==> o == Fail(ObjectDisposedException)
      ensures !deviceFound || old(isDisposed) ==>
        service == old(service) && openCount == old(openCount) && disposedServices == old(disposedServices)
      ensures deviceFound && !old(isDisposed) ==>
        && disposedServices == old(disposedServices) + (if old(service).Some? then [old(service).value] else [])
        && (open.Fail? ==> o == open && service == None && openCount == old(openCount))
        && (open.Pass? ==>
              && service == Some(old(openCount)) && openCount == old(openCount) + 1
              && o == if !characteristicFound then Fail(ArgumentOutOfRangeException) else configure)
      ensures isDisposed == old(isDisposed) && updates == old(updates)
    {
      if !deviceFound {
        return Fail(ArgumentOutOfRangeException);
      }
      if isDisposed {
        return Fail(ObjectDisposedException);
      }
      Cleanup();
      if open.Fail? {
        return open;
      }
      service := Some(openCount);
      openCount := openCount + 1;
      if !characteristicFound {
        return Fail(ArgumentOutOfRangeException);
      }
      o := configure;
    }
  }
}
