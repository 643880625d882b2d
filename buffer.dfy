/** The integer test-buffer helpers of the MPI tests (test/mpi/buffer.cc):
    filling a buffer with a pattern derived from a value, and comparing a
    result with the expected buffer. A buffer being filled is seen as its
    `count` elements; a buffer being compared as its bytes. */
module TestBuffer {
  import opened TlShm

  /** size_t is 64 bits wide. */
  const SIZE_T_MOD: int := 0x1_0000_0000_0000_0000
  type SizeT = x: int | 0 <= x < SIZE_T_MOD

  /** The ucc_datatype_t values init_buffer knows, and any other. */
  datatype Datatype =
    | Int8 | UInt8 | Int16 | UInt16 | Int32 | UInt32 | Int64 | UInt64 | Float32 | Float64
    | OtherDt(code: nat)

  /** ucc_memory_type_t: host, CUDA, or any other. */
  datatype MemType = Host | Cuda | OtherMem(code: nat)

  predicate IsFloat(dt: Datatype)
  {
    dt == Float32 || dt == Float64
  }

  /** The memory types the helpers accept; any other aborts. */
  predicate MemSupported(mt: MemType)
  {
    mt == Host || mt == Cuda
  }

  /** The element `i` init_buffer_host writes: `(_value + i + 1) % 128`,
      where the int is converted to size_t and the sum wraps in size_t. */
  function FillValue(value: int, i: SizeT): int
  {
    ((value % SIZE_T_MOD + i + 1) % SIZE_T_MOD) % 128
  }

  /** 128 divides 2^64, so reducing modulo 2^64 first changes nothing
      modulo 128. */
  lemma ModWrapKeepsMod128(x: int)
    ensures (x % SIZE_T_MOD) % 128 == x % 128
  {
    var q := x / SIZE_T_MOD;
    var r := x % SIZE_T_MOD;
    assert x == SIZE_T_MOD * q + r;
    assert SIZE_T_MOD * q == 128 * (0x200_0000_0000_0000 * q);
    AddMultipleOf128(r, 0x200_0000_0000_0000 * q);
  }

  lemma AddMultipleOf128(r: int, k: int)
    ensures (r + 128 * k) % 128 == r % 128
  {
  }

  /** The element is `(value + i + 1) mod 128` taken mathematically, for
      every int value, negative ones included; so it always lies in
      [0, 127] and fits every element type, int8 included. */
  lemma FillValueIsMod128(value: int, i: SizeT)
    ensures FillValue(value, i) == (value + i + 1) % 128
    ensures 0 <= FillValue(value, i) <= 127
  {
    ModWrapKeepsMod128(value % SIZE_T_MOD + i + 1);
    ModWrapKeepsMod128(value);
    AddMultipleOf128(value + i + 1, -(value / SIZE_T_MOD) * 0x200_0000_0000_0000);
    assert value % SIZE_T_MOD + i + 1
           == (value + i + 1) + 128 * (-(value / SIZE_T_MOD) * 0x200_0000_0000_0000);
  }

  /** The pattern repeats with period 128. */
  lemma FillIsPeriodic(value: int, i: SizeT)
    requires i + 128 < SIZE_T_MOD
    ensures FillValue(value, i + 128) == FillValue(value, i)
  {
    FillValueIsMod128(value, i);
    FillValueIsMod128(value, i + 128);
    AddMultipleOf128(value + i + 1, 1);
  }

  /** Each element is the previous one plus one, modulo 128. */
  lemma FillCountsUp(value: int, i: SizeT)
    requires i + 1 < SIZE_T_MOD
    ensures FillValue(value, i + 1) == (FillValue(value, i) + 1) % 128
  {
    FillValueIsMod128(value, i);
    FillValueIsMod128(value, i + 1);
    var x := value + i + 1;
    assert x == 128 * (x / 128) + x % 128;
    AddMultipleOf128(x % 128 + 1, x / 128);
  }

  /** Values congruent modulo 128 give the same element. */
  lemma SameResidueSameFill(v1: int, v2: int, i: SizeT)
    requires v1 % 128 == v2 % 128
    ensures FillValue(v1, i) == FillValue(v2, i)
  {
    FillValueIsMod128(v1, i);
    FillValueIsMod128(v2, i);
    var r := v1 % 128 + i + 1;
    assert v1 + i + 1 == r + 128 * (v1 / 128);
    assert v2 + i + 1 == r + 128 * (v2 / 128);
    AddMultipleOf128(r, v1 / 128);
    AddMultipleOf128(r, v2 / 128);
  }

  lemma SuccMod128(v: int)
    ensures (v + 1) % 128 == (v % 128 + 1) % 128
  {
    assert v + 1 == (v % 128 + 1) + 128 * (v / 128);
    AddMultipleOf128(v % 128 + 1, v / 128);
  }

  /** Two non-empty fills agree exactly when their values agree modulo
      128: the first element already tells them apart. */
  lemma FillsAgreeIffValuesAgree(v1: int, v2: int, count: SizeT)
    requires count > 0
    ensures (forall i: SizeT | i < count :: FillValue(v1, i) == FillValue(v2, i)) <==> v1 % 128 == v2 % 128
  {
    FillValueIsMod128(v1, 0);
    FillValueIsMod128(v2, 0);
    if v1 % 128 == v2 % 128 {
      forall i: SizeT | i < count
        ensures FillValue(v1, i) == FillValue(v2, i)
      {
        SameResidueSameFill(v1, v2, i);
      }
    } else {
      SuccMod128(v1);
      SuccMod128(v2);
    }
  }

  /** init_buffer_host<T>: the first `count` elements get the pattern, the
      rest of the buffer is left alone. */
  method InitBufferHost(buf: array<int>, count: SizeT, value: int)
    requires count <= buf.Length
    modifies buf
    ensures forall i: SizeT | i < count :: buf[i] == FillValue(value, i)
    ensures buf[count..] == old(buf[count..])
  {
    var i: SizeT := 0;
    while i < count
      invariant 0 <= i <= count
      invariant forall j: SizeT | j < i :: buf[j] == FillValue(value, j)
      invariant buf[count..] == old(buf[count..])
    {
      buf[i] := FillValue(value, i);
      i := i + 1;
    }
  }

  /** init_buffer: host memory is filled in place; for CUDA memory the
      pattern is built in a host staging buffer and copied over. Any other
      memory type, or a datatype outside the ten it lists, aborts the test
      (`aborted`) before the caller's buffer is written. */
  method InitBuffer(buf: array<int>, count: SizeT, dt: Datatype, mt: MemType, value: int)
    returns (aborted: bool)
    requires count <= buf.Length
    modifies buf
    ensures aborted <==> !MemSupported(mt) || dt.OtherDt?
    ensures aborted ==> buf[..] == old(buf[..])
    ensures !aborted ==> forall i: SizeT | i < count :: buf[i] == FillValue(value, i)
    ensures buf[count..] == old(buf[count..])
  {
    if mt == Cuda {
      var staging := new int[count];
      if dt.OtherDt? {
        return true;
      }
      InitBufferHost(staging, count, value);
      forall i | 0 <= i < count {
        buf[i] := staging[i];
      }
      return false;
    } else if mt == Host {
      if dt.OtherDt? {
        return true;
      }
      InitBufferHost(buf, count, value);
      return false;
    }
    return true;
  }

  /** compare_buffers for a datatype other than float32 and float64: the
      result (copied to a host buffer first when it is CUDA memory) matches
      exactly when its `count * dt_size` bytes equal the expected ones,
      NO_MESSAGE otherwise; any other memory type aborts. */
  method CompareBuffers(rst: array<Byte>, expected: array<Byte>, count: SizeT, dtSize: nat, dt: Datatype,
                        mt: MemType)
    returns (st: Status, aborted: bool)
    requires !IsFloat(dt)
    requires count * dtSize <= rst.Length && count * dtSize <= expected.Length
    ensures aborted <==> !MemSupported(mt)
    ensures !aborted ==> (st == Ok <==> rst[..count * dtSize] == expected[..count * dtSize])
    ensures !aborted ==> st == Ok || st == Err(NoMessage)
  {
    var n := count * dtSize;
    var host: seq<Byte>;
    if mt == Host {
      host := rst[..n];
    } else if mt == Cuda {
      var staging := new Byte[n];
      forall i | 0 <= i < n {
        staging[i] := rst[i];
      }
      host := staging[..];
    } else {
      return Err(NoMessage), true;
    }
    st := if host == expected[..n] then Ok else Err(NoMessage);
    aborted := false;
  }
}
