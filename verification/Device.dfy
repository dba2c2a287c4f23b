/** The block device of drivers/block.c: one 512-byte sector per call. */
module Device {
  import opened Bytes

  /**
   * A one-sector transfer either succeeds or moves no data. A `reliable`
   * device fails only outside its range; any other device may fail at any
   * call.
   */
  class BlockDevice {
    const reliable: bool
    var sectors: seq<Sector>

    constructor (image: seq<Sector>, reliable: bool)
      ensures this.sectors == image && this.reliable == reliable
    {
      this.sectors := image;
      this.reliable := reliable;
    }

    method Read(lba: uint32, buf: array<uint8>, off: nat) returns (ok: bool)
      requires off + SECTOR_SIZE <= buf.Length
      modifies buf
      ensures !ok ==> buf[..] == old(buf[..])
      ensures ok ==> lba < |sectors| && buf[..] == Put(old(buf[..]), off, sectors[lba])
      ensures reliable && lba < |sectors| ==> ok
    {
      if lba >= |sectors| {
        return false;
      }
      if !reliable {
        var fault: bool := *;
        if fault {
          return false;
        }
      }
      var s := sectors[lba];
      forall k | 0 <= k < SECTOR_SIZE {
        buf[off + k] := s[k];
      }
      assert buf[..] == Put(old(buf[..]), off, s);
      return true;
    }

    method Write(lba: uint32, bytes: Sector) returns (ok: bool)
      modifies this
      ensures !ok ==> sectors == old(sectors)
      ensures ok ==> lba < |old(sectors)| && sectors == old(sectors)[lba := bytes]
      ensures reliable && lba < |old(sectors)| ==> ok
    {
      if lba >= |sectors| {
        return false;
      }
      if !reliable {
        var fault: bool := *;
        if fault {
          return false;
        }
      }
      sectors := sectors[lba := bytes];
      return true;
    }
  }
}
