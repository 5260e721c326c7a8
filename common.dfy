/** Value types shared by the store, the write batches and the registry. */
module Common {

  /** One octet of a key or a value; LevelDB slices and std::string hold raw bytes. */
  newtype byte = x: int | 0 <= x < 256

  type Bytes = seq<byte>

  datatype Option<T> = None | Some(value: T)

  /** Errors that the modelled calls raise through luaL_error. */
  datatype Error = CompressFailed | OpenFailed | NameHeldByBatch | NameHeldByDatabase

  datatype Result<T> = Ok(value: T) | Err(error: Error)

  /**
   * The miniz collaborators, passed in as functions: `deflate` stands for
   * tdefl_compress_mem_to_heap with a zlib header and `inflate` for
   * tinfl_decompress_mem_to_heap; None is the null pointer they return on failure.
   */
  type Codec = Bytes -> Option<Bytes>

  /** C++ `int` (the parameter slots) and `int64_t` (lua_Integer). */
  newtype int32 = x: int | -0x8000_0000 <= x < 0x8000_0000
  newtype int64 = x: int | -0x8000_0000_0000_0000 <= x < 0x8000_0000_0000_0000

  /**
   * The implicit narrowing `int m_int_param[i] = int64_t value`: two's-complement
   * wrap-around to 32 bits.
   */
  function ToInt32(v: int64): (r: int32)
    ensures (r as int - v as int) % 0x1_0000_0000 == 0
    ensures -0x8000_0000 <= v as int < 0x8000_0000 ==> r as int == v as int
  {
    var m := (v as int) % 0x1_0000_0000;
    if m < 0x8000_0000 then m as int32 else (m - 0x1_0000_0000) as int32
  }

  /** The key-value view of a store map: the found/not-found outcome of DB::Get. */
  function Lookup(s: map<Bytes, Bytes>, k: Bytes): Option<Bytes>
  {
    if k in s then Some(s[k]) else None
  }
}
