/** Raw bytes, shared by the audio output and the agent state's last audio output. */
module Bytes {

  type Byte = b: int | 0 <= b < 0x100
}
