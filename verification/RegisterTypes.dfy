/** Bytes and register words, and the two register tables of a Modbus device. */
module RegisterTypes {

  type Byte = b: int | 0 <= b < 0x100
  type Word = w: int | 0 <= w < 0x1_0000

  datatype RegisterType = Holding | Input
}
