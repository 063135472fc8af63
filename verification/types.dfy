/** The identifiers and enumerations shared by every layer (src/types.rs), and the
    failure-compatible result type that stands for `io::Result`. */
module Types {

  type byte = x: int | 0 <= x < 256
  type Bytes = seq<byte>

  const U16_LIMIT: nat := 0x1_0000
  const U32_LIMIT: nat := 0x1_0000_0000
  const U64_LIMIT: nat := 0x1_0000_0000_0000_0000

  type u16 = x: int | 0 <= x < U16_LIMIT
  type u64 = x: int | 0 <= x < U64_LIMIT
  type i64 = x: int | -0x8000_0000_0000_0000 <= x < 0x8000_0000_0000_0000

  /** Peer ids come from a counter that starts at 1 and is only incremented. */
  type PeerId = nat

  /** A 32-byte modifier identifier. */
  type ModifierId = s: Bytes | |s| == 32 witness seq(32, _ => 0)

  /** Four magic bytes. */
  type Magic = s: Bytes | |s| == 4 witness [0, 0, 0, 0]

  datatype Direction = Outbound | Inbound

  datatype ProxyMode = Full | Light

  datatype Network = Mainnet | Testnet {
    function Magic(): Magic {
      match this
      case Mainnet => [1, 0, 2, 4]
      case Testnet => [2, 3, 2, 3]
    }
  }

  datatype Version = Version(major: byte, minor: byte, patch: byte) {
    /** The derived `Ord`: lexicographic on the three fields. */
    predicate LessThan(other: Version) {
      || major < other.major
      || (major == other.major && minor < other.minor)
      || (major == other.major && minor == other.minor && patch < other.patch)
    }
  }

  const EIP37_MIN: Version := Version(4, 0, 100)

  datatype Option<+T> = None | Some(value: T)

  /** The error kinds the code distinguishes. */
  datatype IoError = UnexpectedEof | InvalidData | ConnectionReset

  datatype Result<+T> = Ok(value: T) | Err(error: IoError) {
    predicate IsFailure() {
      Err?
    }

    function PropagateFailure<U>(): Result<U>
      requires Err?
    {
      Err(error)
    }

    function Extract(): T
      requires Ok?
    {
      value
    }
  }
}
