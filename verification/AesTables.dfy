/**
 The three lookup tables of the AES implementation, as two-level selections: the high
 nibble of the byte picks a row, the low nibble picks the entry in that row.
 */
module AesTables {

  /** One row of the multiplication table: a byte times each of the six coefficients in use. */
  datatype Multiples = Multiples(x2: bv8, x3: bv8, x9: bv8, xb: bv8, xd: bv8, xe: bv8)

  /** The substitution box of section 5.1.1 of FIPS 197. */
  function SBox(b: bv8): bv8 {
    match b >> 4
    case 0 => SBoxRow0(b & 0x0F)
    case 1 => SBoxRow1(b & 0x0F)
    case 2 => SBoxRow2(b & 0x0F)
    case 3 => SBoxRow3(b & 0x0F)
    case 4 => SBoxRow4(b & 0x0F)
    case 5 => SBoxRow5(b & 0x0F)
    case 6 => SBoxRow6(b & 0x0F)
    case 7 => SBoxRow7(b & 0x0F)
    case 8 => SBoxRow8(b & 0x0F)
    case 9 => SBoxRow9(b & 0x0F)
    case 10 => SBoxRowA(b & 0x0F)
    case 11 => SBoxRowB(b & 0x0F)
    case 12 => SBoxRowC(b & 0x0F)
    case 13 => SBoxRowD(b & 0x0F)
    case 14 => SBoxRowE(b & 0x0F)
    case _ => SBoxRowF(b & 0x0F)
  }

  function SBoxRow0(low: bv8): bv8 {
    match low
    case 0 => 0x63 case 1 => 0x7C case 2 => 0x77 case 3 => 0x7B
    case 4 => 0xF2 case 5 => 0x6B case 6 => 0x6F case 7 => 0xC5
    case 8 => 0x30 case 9 => 0x01 case 10 => 0x67 case 11 => 0x2B
    case 12 => 0xFE case 13 => 0xD7 case 14 => 0xAB case _ => 0x76
  }

  function SBoxRow1(low: bv8): bv8 {
    match low
    case 0 => 0xCA case 1 => 0x82 case 2 => 0xC9 case 3 => 0x7D
    case 4 => 0xFA case 5 => 0x59 case 6 => 0x47 case 7 => 0xF0
    case 8 => 0xAD case 9 => 0xD4 case 10 => 0xA2 case 11 => 0xAF
    case 12 => 0x9C case 13 => 0xA4 case 14 => 0x72 case _ => 0xC0
  }

  function SBoxRow2(low: bv8): bv8 {
    match low
    case 0 => 0xB7 case 1 => 0xFD case 2 => 0x93 case 3 => 0x26
    case 4 => 0x36 case 5 => 0x3F case 6 => 0xF7 case 7 => 0xCC
    case 8 => 0x34 case 9 => 0xA5 case 10 => 0xE5 case 11 => 0xF1
    case 12 => 0x71 case 13 => 0xD8 case 14 => 0x31 case _ => 0x15
  }

  function SBoxRow3(low: bv8): bv8 {
    match low
    case 0 => 0x04 case 1 => 0xC7 case 2 => 0x23 case 3 => 0xC3
    case 4 => 0x18 case 5 => 0x96 case 6 => 0x05 case 7 => 0x9A
    case 8 => 0x07 case 9 => 0x12 case 10 => 0x80 case 11 => 0xE2
    case 12 => 0xEB case 13 => 0x27 case 14 => 0xB2 case _ => 0x75
  }

  function SBoxRow4(low: bv8): bv8 {
    match low
    case 0 => 0x09 case 1 => 0x83 case 2 => 0x2C case 3 => 0x1A
    case 4 => 0x1B case 5 => 0x6E case 6 => 0x5A case 7 => 0xA0
    case 8 => 0x52 case 9 => 0x3B case 10 => 0xD6 case 11 => 0xB3
    case 12 => 0x29 case 13 => 0xE3 case 14 => 0x2F case _ => 0x84
  }

  function SBoxRow5(low: bv8): bv8 {
    match low
    case 0 => 0x53 case 1 => 0xD1 case 2 => 0x00 case 3 => 0xED
    case 4 => 0x20 case 5 => 0xFC case 6 => 0xB1 case 7 => 0x5B
    case 8 => 0x6A case 9 => 0xCB case 10 => 0xBE case 11 => 0x39
    case 12 => 0x4A case 13 => 0x4C case 14 => 0x58 case _ => 0xCF
  }

  function SBoxRow6(low: bv8): bv8 {
    match low
    case 0 => 0xD0 case 1 => 0xEF case 2 => 0xAA case 3 => 0xFB
    case 4 => 0x43 case 5 => 0x4D case 6 => 0x33 case 7 => 0x85
    case 8 => 0x45 case 9 => 0xF9 case 10 => 0x02 case 11 => 0x7F
    case 12 => 0x50 case 13 => 0x3C case 14 => 0x9F case _ => 0xA8
  }

  function SBoxRow7(low: bv8): bv8 {
    match low
    case 0 => 0x51 case 1 => 0xA3 case 2 => 0x40 case 3 => 0x8F
    case 4 => 0x92 case 5 => 0x9D case 6 => 0x38 case 7 => 0xF5
    case 8 => 0xBC case 9 => 0xB6 case 10 => 0xDA case 11 => 0x21
    case 12 => 0x10 case 13 => 0xFF case 14 => 0xF3 case _ => 0xD2
  }

  function SBoxRow8(low: bv8): bv8 {
    match low
    case 0 => 0xCD case 1 => 0x0C case 2 => 0x13 case 3 => 0xEC
    case 4 => 0x5F case 5 => 0x97 case 6 => 0x44 case 7 => 0x17
    case 8 => 0xC4 case 9 => 0xA7 case 10 => 0x7E case 11 => 0x3D
    case 12 => 0x64 case 13 => 0x5D case 14 => 0x19 case _ => 0x73
  }

  function SBoxRow9(low: bv8): bv8 {
    match low
    case 0 => 0x60 case 1 => 0x81 case 2 => 0x4F case 3 => 0xDC
    case 4 => 0x22 case 5 => 0x2A case 6 => 0x90 case 7 => 0x88
    case 8 => 0x46 case 9 => 0xEE case 10 => 0xB8 case 11 => 0x14
    case 12 => 0xDE case 13 => 0x5E case 14 => 0x0B case _ => 0xDB
  }

  function SBoxRowA(low: bv8): bv8 {
    match low
    case 0 => 0xE0 case 1 => 0x32 case 2 => 0x3A case 3 => 0x0A
    case 4 => 0x49 case 5 => 0x06 case 6 => 0x24 case 7 => 0x5C
    case 8 => 0xC2 case 9 => 0xD3 case 10 => 0xAC case 11 => 0x62
    case 12 => 0x91 case 13 => 0x95 case 14 => 0xE4 case _ => 0x79
  }

  function SBoxRowB(low: bv8): bv8 {
    match low
    case 0 => 0xE7 case 1 => 0xC8 case 2 => 0x37 case 3 => 0x6D
    case 4 => 0x8D case 5 => 0xD5 case 6 => 0x4E case 7 => 0xA9
    case 8 => 0x6C case 9 => 0x56 case 10 => 0xF4 case 11 => 0xEA
    case 12 => 0x65 case 13 => 0x7A case 14 => 0xAE case _ => 0x08
  }

  function SBoxRowC(low: bv8): bv8 {
    match low
    case 0 => 0xBA case 1 => 0x78 case 2 => 0x25 case 3 => 0x2E
    case 4 => 0x1C case 5 => 0xA6 case 6 => 0xB4 case 7 => 0xC6
    case 8 => 0xE8 case 9 => 0xDD case 10 => 0x74 case 11 => 0x1F
    case 12 => 0x4B case 13 => 0xBD case 14 => 0x8B case _ => 0x8A
  }

  function SBoxRowD(low: bv8): bv8 {
    match low
    case 0 => 0x70 case 1 => 0x3E case 2 => 0xB5 case 3 => 0x66
    case 4 => 0x48 case 5 => 0x03 case 6 => 0xF6 case 7 => 0x0E
    case 8 => 0x61 case 9 => 0x35 case 10 => 0x57 case 11 => 0xB9
    case 12 => 0x86 case 13 => 0xC1 case 14 => 0x1D case _ => 0x9E
  }

  function SBoxRowE(low: bv8): bv8 {
    match low
    case 0 => 0xE1 case 1 => 0xF8 case 2 => 0x98 case 3 => 0x11
    case 4 => 0x69 case 5 => 0xD9 case 6 => 0x8E case 7 => 0x94
    case 8 => 0x9B case 9 => 0x1E case 10 => 0x87 case 11 => 0xE9
    case 12 => 0xCE case 13 => 0x55 case 14 => 0x28 case _ => 0xDF
  }

  function SBoxRowF(low: bv8): bv8 {
    match low
    case 0 => 0x8C case 1 => 0xA1 case 2 => 0x89 case 3 => 0x0D
    case 4 => 0xBF case 5 => 0xE6 case 6 => 0x42 case 7 => 0x68
    case 8 => 0x41 case 9 => 0x99 case 10 => 0x2D case 11 => 0x0F
    case 12 => 0xB0 case 13 => 0x54 case 14 => 0xBB case _ => 0x16
  }

  /** The inverse substitution box of section 5.3.2 of FIPS 197. */
  function InvSBox(b: bv8): bv8 {
    match b >> 4
    case 0 => InvSBoxRow0(b & 0x0F)
    case 1 => InvSBoxRow1(b & 0x0F)
    case 2 => InvSBoxRow2(b & 0x0F)
    case 3 => InvSBoxRow3(b & 0x0F)
    case 4 => InvSBoxRow4(b & 0x0F)
    case 5 => InvSBoxRow5(b & 0x0F)
    case 6 => InvSBoxRow6(b & 0x0F)
    case 7 => InvSBoxRow7(b & 0x0F)
    case 8 => InvSBoxRow8(b & 0x0F)
    case 9 => InvSBoxRow9(b & 0x0F)
    case 10 => InvSBoxRowA(b & 0x0F)
    case 11 => InvSBoxRowB(b & 0x0F)
    case 12 => InvSBoxRowC(b & 0x0F)
    case 13 => InvSBoxRowD(b & 0x0F)
    case 14 => InvSBoxRowE(b & 0x0F)
    case _ => InvSBoxRowF(b & 0x0F)
  }

  function InvSBoxRow0(low: bv8): bv8 {
    match low
    case 0 => 0x52 case 1 => 0x09 case 2 => 0x6A case 3 => 0xD5
    case 4 => 0x30 case 5 => 0x36 case 6 => 0xA5 case 7 => 0x38
    case 8 => 0xBF case 9 => 0x40 case 10 => 0xA3 case 11 => 0x9E
    case 12 => 0x81 case 13 => 0xF3 case 14 => 0xD7 case _ => 0xFB
  }

  function InvSBoxRow1(low: bv8): bv8 {
    match low
    case 0 => 0x7C case 1 => 0xE3 case 2 => 0x39 case 3 => 0x82
    case 4 => 0x9B case 5 => 0x2F case 6 => 0xFF case 7 => 0x87
    case 8 => 0x34 case 9 => 0x8E case 10 => 0x43 case 11 => 0x44
    case 12 => 0xC4 case 13 => 0xDE case 14 => 0xE9 case _ => 0xCB
  }

  function InvSBoxRow2(low: bv8): bv8 {
    match low
    case 0 => 0x54 case 1 => 0x7B case 2 => 0x94 case 3 => 0x32
    case 4 => 0xA6 case 5 => 0xC2 case 6 => 0x23 case 7 => 0x3D
    case 8 => 0xEE case 9 => 0x4C case 10 => 0x95 case 11 => 0x0B
    case 12 => 0x42 case 13 => 0xFA case 14 => 0xC3 case _ => 0x4E
  }

  function InvSBoxRow3(low: bv8): bv8 {
    match low
    case 0 => 0x08 case 1 => 0x2E case 2 => 0xA1 case 3 => 0x66
    case 4 => 0x28 case 5 => 0xD9 case 6 => 0x24 case 7 => 0xB2
    case 8 => 0x76 case 9 => 0x5B case 10 => 0xA2 case 11 => 0x49
    case 12 => 0x6D case 13 => 0x8B case 14 => 0xD1 case _ => 0x25
  }

  function InvSBoxRow4(low: bv8): bv8 {
    match low
    case 0 => 0x72 case 1 => 0xF8 case 2 => 0xF6 case 3 => 0x64
    case 4 => 0x86 case 5 => 0x68 case 6 => 0x98 case 7 => 0x16
    case 8 => 0xD4 case 9 => 0xA4 case 10 => 0x5C case 11 => 0xCC
    case 12 => 0x5D case 13 => 0x65 case 14 => 0xB6 case _ => 0x92
  }

  function InvSBoxRow5(low: bv8): bv8 {
    match low
    case 0 => 0x6C case 1 => 0x70 case 2 => 0x48 case 3 => 0x50
    case 4 => 0xFD case 5 => 0xED case 6 => 0xB9 case 7 => 0xDA
    case 8 => 0x5E case 9 => 0x15 case 10 => 0x46 case 11 => 0x57
    case 12 => 0xA7 case 13 => 0x8D case 14 => 0x9D case _ => 0x84
  }

  function InvSBoxRow6(low: bv8): bv8 {
    match low
    case 0 => 0x90 case 1 => 0xD8 case 2 => 0xAB case 3 => 0x00
    case 4 => 0x8C case 5 => 0xBC case 6 => 0xD3 case 7 => 0x0A
    case 8 => 0xF7 case 9 => 0xE4 case 10 => 0x58 case 11 => 0x05
    case 12 => 0xB8 case 13 => 0xB3 case 14 => 0x45 case _ => 0x06
  }

  function InvSBoxRow7(low: bv8): bv8 {
    match low
    case 0 => 0xD0 case 1 => 0x2C case 2 => 0x1E case 3 => 0x8F
    case 4 => 0xCA case 5 => 0x3F case 6 => 0x0F case 7 => 0x02
    case 8 => 0xC1 case 9 => 0xAF case 10 => 0xBD case 11 => 0x03
    case 12 => 0x01 case 13 => 0x13 case 14 => 0x8A case _ => 0x6B
  }

  function InvSBoxRow8(low: bv8): bv8 {
    match low
    case 0 => 0x3A case 1 => 0x91 case 2 => 0x11 case 3 => 0x41
    case 4 => 0x4F case 5 => 0x67 case 6 => 0xDC case 7 => 0xEA
    case 8 => 0x97 case 9 => 0xF2 case 10 => 0xCF case 11 => 0xCE
    case 12 => 0xF0 case 13 => 0xB4 case 14 => 0xE6 case _ => 0x73
  }

  function InvSBoxRow9(low: bv8): bv8 {
    match low
    case 0 => 0x96 case 1 => 0xAC case 2 => 0x74 case 3 => 0x22
    case 4 => 0xE7 case 5 => 0xAD case 6 => 0x35 case 7 => 0x85
    case 8 => 0xE2 case 9 => 0xF9 case 10 => 0x37 case 11 => 0xE8
    case 12 => 0x1C case 13 => 0x75 case 14 => 0xDF case _ => 0x6E
  }

  function InvSBoxRowA(low: bv8): bv8 {
    match low
    case 0 => 0x47 case 1 => 0xF1 case 2 => 0x1A case 3 => 0x71
    case 4 => 0x1D case 5 => 0x29 case 6 => 0xC5 case 7 => 0x89
    case 8 => 0x6F case 9 => 0xB7 case 10 => 0x62 case 11 => 0x0E
    case 12 => 0xAA case 13 => 0x18 case 14 => 0xBE case _ => 0x1B
  }

  function InvSBoxRowB(low: bv8): bv8 {
    match low
    case 0 => 0xFC case 1 => 0x56 case 2 => 0x3E case 3 => 0x4B
    case 4 => 0xC6 case 5 => 0xD2 case 6 => 0x79 case 7 => 0x20
    case 8 => 0x9A case 9 => 0xDB case 10 => 0xC0 case 11 => 0xFE
    case 12 => 0x78 case 13 => 0xCD case 14 => 0x5A case _ => 0xF4
  }

  function InvSBoxRowC(low: bv8): bv8 {
    match low
    case 0 => 0x1F case 1 => 0xDD case 2 => 0xA8 case 3 => 0x33
    case 4 => 0x88 case 5 => 0x07 case 6 => 0xC7 case 7 => 0x31
    case 8 => 0xB1 case 9 => 0x12 case 10 => 0x10 case 11 => 0x59
    case 12 => 0x27 case 13 => 0x80 case 14 => 0xEC case _ => 0x5F
  }

  function InvSBoxRowD(low: bv8): bv8 {
    match low
    case 0 => 0x60 case 1 => 0x51 case 2 => 0x7F case 3 => 0xA9
    case 4 => 0x19 case 5 => 0xB5 case 6 => 0x4A case 7 => 0x0D
    case 8 => 0x2D case 9 => 0xE5 case 10 => 0x7A case 11 => 0x9F
    case 12 => 0x93 case 13 => 0xC9 case 14 => 0x9C case _ => 0xEF
  }

  function InvSBoxRowE(low: bv8): bv8 {
    match low
    case 0 => 0xA0 case 1 => 0xE0 case 2 => 0x3B case 3 => 0x4D
    case 4 => 0xAE case 5 => 0x2A case 6 => 0xF5 case 7 => 0xB0
    case 8 => 0xC8 case 9 => 0xEB case 10 => 0xBB case 11 => 0x3C
    case 12 => 0x83 case 13 => 0x53 case 14 => 0x99 case _ => 0x61
  }

  function InvSBoxRowF(low: bv8): bv8 {
    match low
    case 0 => 0x17 case 1 => 0x2B case 2 => 0x04 case 3 => 0x7E
    case 4 => 0xBA case 5 => 0x77 case 6 => 0xD6 case 7 => 0x26
    case 8 => 0xE1 case 9 => 0x69 case 10 => 0x14 case 11 => 0x63
    case 12 => 0x55 case 13 => 0x21 case 14 => 0x0C case _ => 0x7D
  }

  /** Products in GF(2^8) of a byte with 02, 03, 09, 0b, 0d and 0e. */
  function GfMul(b: bv8): Multiples {
    match b >> 4
    case 0 => GfMulRow0(b & 0x0F)
    case 1 => GfMulRow1(b & 0x0F)
    case 2 => GfMulRow2(b & 0x0F)
    case 3 => GfMulRow3(b & 0x0F)
    case 4 => GfMulRow4(b & 0x0F)
    case 5 => GfMulRow5(b & 0x0F)
    case 6 => GfMulRow6(b & 0x0F)
    case 7 => GfMulRow7(b & 0x0F)
    case 8 => GfMulRow8(b & 0x0F)
    case 9 => GfMulRow9(b & 0x0F)
    case 10 => GfMulRowA(b & 0x0F)
    case 11 => GfMulRowB(b & 0x0F)
    case 12 => GfMulRowC(b & 0x0F)
    case 13 => GfMulRowD(b & 0x0F)
    case 14 => GfMulRowE(b & 0x0F)
    case _ => GfMulRowF(b & 0x0F)
  }

  function GfMulRow0(low: bv8): Multiples {
    match low
    case 0 => Multiples(0x00, 0x00, 0x00, 0x00, 0x00, 0x00)
    case 1 => Multiples(0x02, 0x03, 0x09, 0x0B, 0x0D, 0x0E)
    case 2 => Multiples(0x04, 0x06, 0x12, 0x16, 0x1A, 0x1C)
    case 3 => Multiples(0x06, 0x05, 0x1B, 0x1D, 0x17, 0x12)
    case 4 => Multiples(0x08, 0x0C, 0x24, 0x2C, 0x34, 0x38)
    case 5 => Multiples(0x0A, 0x0F, 0x2D, 0x27, 0x39, 0x36)
    case 6 => Multiples(0x0C, 0x0A, 0x36, 0x3A, 0x2E, 0x24)
    case 7 => Multiples(0x0E, 0x09, 0x3F, 0x31, 0x23, 0x2A)
    case 8 => Multiples(0x10, 0x18, 0x48, 0x58, 0x68, 0x70)
    case 9 => Multiples(0x12, 0x1B, 0x41, 0x53, 0x65, 0x7E)
    case 10 => Multiples(0x14, 0x1E, 0x5A, 0x4E, 0x72, 0x6C)
    case 11 => Multiples(0x16, 0x1D, 0x53, 0x45, 0x7F, 0x62)
    case 12 => Multiples(0x18, 0x14, 0x6C, 0x74, 0x5C, 0x48)
    case 13 => Multiples(0x1A, 0x17, 0x65, 0x7F, 0x51, 0x46)
    case 14 => Multiples(0x1C, 0x12, 0x7E, 0x62, 0x46, 0x54)
    case _ => Multiples(0x1E, 0x11, 0x77, 0x69, 0x4B, 0x5A)
  }

  function GfMulRow1(low: bv8): Multiples {
    match low
    case 0 => Multiples(0x20, 0x30, 0x90, 0xB0, 0xD0, 0xE0)
    case 1 => Multiples(0x22, 0x33, 0x99, 0xBB, 0xDD, 0xEE)
    case 2 => Multiples(0x24, 0x36, 0x82, 0xA6, 0xCA, 0xFC)
    case 3 => Multiples(0x26, 0x35, 0x8B, 0xAD, 0xC7, 0xF2)
    case 4 => Multiples(0x28, 0x3C, 0xB4, 0x9C, 0xE4, 0xD8)
    case 5 => Multiples(0x2A, 0x3F, 0xBD, 0x97, 0xE9, 0xD6)
    case 6 => Multiples(0x2C, 0x3A, 0xA6, 0x8A, 0xFE, 0xC4)
    case 7 => Multiples(0x2E, 0x39, 0xAF, 0x81, 0xF3, 0xCA)
    case 8 => Multiples(0x30, 0x28, 0xD8, 0xE8, 0xB8, 0x90)
    case 9 => Multiples(0x32, 0x2B, 0xD1, 0xE3, 0xB5, 0x9E)
    case 10 => Multiples(0x34, 0x2E, 0xCA, 0xFE, 0xA2, 0x8C)
    case 11 => Multiples(0x36, 0x2D, 0xC3, 0xF5, 0xAF, 0x82)
    case 12 => Multiples(0x38, 0x24, 0xFC, 0xC4, 0x8C, 0xA8)
    case 13 => Multiples(0x3A, 0x27, 0xF5, 0xCF, 0x81, 0xA6)
    case 14 => Multiples(0x3C, 0x22, 0xEE, 0xD2, 0x96, 0xB4)
    case _ => Multiples(0x3E, 0x21, 0xE7, 0xD9, 0x9B, 0xBA)
  }

  function GfMulRow2(low: bv8): Multiples {
    match low
    case 0 => Multiples(0x40, 0x60, 0x3B, 0x7B, 0xBB, 0xDB)
    case 1 => Multiples(0x42, 0x63, 0x32, 0x70, 0xB6, 0xD5)
    case 2 => Multiples(0x44, 0x66, 0x29, 0x6D, 0xA1, 0xC7)
    case 3 => Multiples(0x46, 0x65, 0x20, 0x66, 0xAC, 0xC9)
    case 4 => Multiples(0x48, 0x6C, 0x1F, 0x57, 0x8F, 0xE3)
    case 5 => Multiples(0x4A, 0x6F, 0x16, 0x5C, 0x82, 0xED)
    case 6 => Multiples(0x4C, 0x6A, 0x0D, 0x41, 0x95, 0xFF)
    case 7 => Multiples(0x4E, 0x69, 0x04, 0x4A, 0x98, 0xF1)
    case 8 => Multiples(0x50, 0x78, 0x73, 0x23, 0xD3, 0xAB)
    case 9 => Multiples(0x52, 0x7B, 0x7A, 0x28, 0xDE, 0xA5)
    case 10 => Multiples(0x54, 0x7E, 0x61, 0x35, 0xC9, 0xB7)
    case 11 => Multiples(0x56, 0x7D, 0x68, 0x3E, 0xC4, 0xB9)
    case 12 => Multiples(0x58, 0x74, 0x57, 0x0F, 0xE7, 0x93)
    case 13 => Multiples(0x5A, 0x77, 0x5E, 0x04, 0xEA, 0x9D)
    case 14 => Multiples(0x5C, 0x72, 0x45, 0x19, 0xFD, 0x8F)
    case _ => Multiples(0x5E, 0x71, 0x4C, 0x12, 0xF0, 0x81)
  }

  function GfMulRow3(low: bv8): Multiples {
    match low
    case 0 => Multiples(0x60, 0x50, 0xAB, 0xCB, 0x6B, 0x3B)
    case 1 => Multiples(0x62, 0x53, 0xA2, 0xC0, 0x66, 0x35)
    case 2 => Multiples(0x64, 0x56, 0xB9, 0xDD, 0x71, 0x27)
    case 3 => Multiples(0x66, 0x55, 0xB0, 0xD6, 0x7C, 0x29)
    case 4 => Multiples(0x68, 0x5C, 0x8F, 0xE7, 0x5F, 0x03)
    case 5 => Multiples(0x6A, 0x5F, 0x86, 0xEC, 0x52, 0x0D)
    case 6 => Multiples(0x6C, 0x5A, 0x9D, 0xF1, 0x45, 0x1F)
    case 7 => Multiples(0x6E, 0x59, 0x94, 0xFA, 0x48, 0x11)
    case 8 => Multiples(0x70, 0x48, 0xE3, 0x93, 0x03, 0x4B)
    case 9 => Multiples(0x72, 0x4B, 0xEA, 0x98, 0x0E, 0x45)
    case 10 => Multiples(0x74, 0x4E, 0xF1, 0x85, 0x19, 0x57)
    case 11 => Multiples(0x76, 0x4D, 0xF8, 0x8E, 0x14, 0x59)
    case 12 => Multiples(0x78, 0x44, 0xC7, 0xBF, 0x37, 0x73)
    case 13 => Multiples(0x7A, 0x47, 0xCE, 0xB4, 0x3A, 0x7D)
    case 14 => Multiples(0x7C, 0x42, 0xD5, 0xA9, 0x2D, 0x6F)
    case _ => Multiples(0x7E, 0x41, 0xDC, 0xA2, 0x20, 0x61)
  }

  function GfMulRow4(low: bv8): Multiples {
    match low
    case 0 => Multiples(0x80, 0xC0, 0x76, 0xF6, 0x6D, 0xAD)
    case 1 => Multiples(0x82, 0xC3, 0x7F, 0xFD, 0x60, 0xA3)
    case 2 => Multiples(0x84, 0xC6, 0x64, 0xE0, 0x77, 0xB1)
    case 3 => Multiples(0x86, 0xC5, 0x6D, 0xEB, 0x7A, 0xBF)
    case 4 => Multiples(0x88, 0xCC, 0x52, 0xDA, 0x59, 0x95)
    case 5 => Multiples(0x8A, 0xCF, 0x5B, 0xD1, 0x54, 0x9B)
    case 6 => Multiples(0x8C, 0xCA, 0x40, 0xCC, 0x43, 0x89)
    case 7 => Multiples(0x8E, 0xC9, 0x49, 0xC7, 0x4E, 0x87)
    case 8 => Multiples(0x90, 0xD8, 0x3E, 0xAE, 0x05, 0xDD)
    case 9 => Multiples(0x92, 0xDB, 0x37, 0xA5, 0x08, 0xD3)
    case 10 => Multiples(0x94, 0xDE, 0x2C, 0xB8, 0x1F, 0xC1)
    case 11 => Multiples(0x96, 0xDD, 0x25, 0xB3, 0x12, 0xCF)
    case 12 => Multiples(0x98, 0xD4, 0x1A, 0x82, 0x31, 0xE5)
    case 13 => Multiples(0x9A, 0xD7, 0x13, 0x89, 0x3C, 0xEB)
    case 14 => Multiples(0x9C, 0xD2, 0x08, 0x94, 0x2B, 0xF9)
    case _ => Multiples(0x9E, 0xD1, 0x01, 0x9F, 0x26, 0xF7)
  }

  function GfMulRow5(low: bv8): Multiples {
    match low
    case 0 => Multiples(0xA0, 0xF0, 0xE6, 0x46, 0xBD, 0x4D)
    case 1 => Multiples(0xA2, 0xF3, 0xEF, 0x4D, 0xB0, 0x43)
    case 2 => Multiples(0xA4, 0xF6, 0xF4, 0x50, 0xA7, 0x51)
    case 3 => Multiples(0xA6, 0xF5, 0xFD, 0x5B, 0xAA, 0x5F)
    case 4 => Multiples(0xA8, 0xFC, 0xC2, 0x6A, 0x89, 0x75)
    case 5 => Multiples(0xAA, 0xFF, 0xCB, 0x61, 0x84, 0x7B)
    case 6 => Multiples(0xAC, 0xFA, 0xD0, 0x7C, 0x93, 0x69)
    case 7 => Multiples(0xAE, 0xF9, 0xD9, 0x77, 0x9E, 0x67)
    case 8 => Multiples(0xB0, 0xE8, 0xAE, 0x1E, 0xD5, 0x3D)
    case 9 => Multiples(0xB2, 0xEB, 0xA7, 0x15, 0xD8, 0x33)
    case 10 => Multiples(0xB4, 0xEE, 0xBC, 0x08, 0xCF, 0x21)
    case 11 => Multiples(0xB6, 0xED, 0xB5, 0x03, 0xC2, 0x2F)
    case 12 => Multiples(0xB8, 0xE4, 0x8A, 0x32, 0xE1, 0x05)
    case 13 => Multiples(0xBA, 0xE7, 0x83, 0x39, 0xEC, 0x0B)
    case 14 => Multiples(0xBC, 0xE2, 0x98, 0x24, 0xFB, 0x19)
    case _ => Multiples(0xBE, 0xE1, 0x91, 0x2F, 0xF6, 0x17)
  }

  function GfMulRow6(low: bv8): Multiples {
    match low
    case 0 => Multiples(0xC0, 0xA0, 0x4D, 0x8D, 0xD6, 0x76)
    case 1 => Multiples(0xC2, 0xA3, 0x44, 0x86, 0xDB, 0x78)
    case 2 => Multiples(0xC4, 0xA6, 0x5F, 0x9B, 0xCC, 0x6A)
    case 3 => Multiples(0xC6, 0xA5, 0x56, 0x90, 0xC1, 0x64)
    case 4 => Multiples(0xC8, 0xAC, 0x69, 0xA1, 0xE2, 0x4E)
    case 5 => Multiples(0xCA, 0xAF, 0x60, 0xAA, 0xEF, 0x40)
    case 6 => Multiples(0xCC, 0xAA, 0x7B, 0xB7, 0xF8, 0x52)
    case 7 => Multiples(0xCE, 0xA9, 0x72, 0xBC, 0xF5, 0x5C)
    case 8 => Multiples(0xD0, 0xB8, 0x05, 0xD5, 0xBE, 0x06)
    case 9 => Multiples(0xD2, 0xBB, 0x0C, 0xDE, 0xB3, 0x08)
    case 10 => Multiples(0xD4, 0xBE, 0x17, 0xC3, 0xA4, 0x1A)
    case 11 => Multiples(0xD6, 0xBD, 0x1E, 0xC8, 0xA9, 0x14)
    case 12 => Multiples(0xD8, 0xB4, 0x21, 0xF9, 0x8A, 0x3E)
    case 13 => Multiples(0xDA, 0xB7, 0x28, 0xF2, 0x87, 0x30)
    case 14 => Multiples(0xDC, 0xB2, 0x33, 0xEF, 0x90, 0x22)
    case _ => Multiples(0xDE, 0xB1, 0x3A, 0xE4, 0x9D, 0x2C)
  }

  function GfMulRow7(low: bv8): Multiples {
    match low
    case 0 => Multiples(0xE0, 0x90, 0xDD, 0x3D, 0x06, 0x96)
    case 1 => Multiples(0xE2, 0x93, 0xD4, 0x36, 0x0B, 0x98)
    case 2 => Multiples(0xE4, 0x96, 0xCF, 0x2B, 0x1C, 0x8A)
    case 3 => Multiples(0xE6, 0x95, 0xC6, 0x20, 0x11, 0x84)
    case 4 => Multiples(0xE8, 0x9C, 0xF9, 0x11, 0x32, 0xAE)
    case 5 => Multiples(0xEA, 0x9F, 0xF0, 0x1A, 0x3F, 0xA0)
    case 6 => Multiples(0xEC, 0x9A, 0xEB, 0x07, 0x28, 0xB2)
    case 7 => Multiples(0xEE, 0x99, 0xE2, 0x0C, 0x25, 0xBC)
    case 8 => Multiples(0xF0, 0x88, 0x95, 0x65, 0x6E, 0xE6)
    case 9 => Multiples(0xF2, 0x8B, 0x9C, 0x6E, 0x63, 0xE8)
    case 10 => Multiples(0xF4, 0x8E, 0x87, 0x73, 0x74, 0xFA)
    case 11 => Multiples(0xF6, 0x8D, 0x8E, 0x78, 0x79, 0xF4)
    case 12 => Multiples(0xF8, 0x84, 0xB1, 0x49, 0x5A, 0xDE)
    case 13 => Multiples(0xFA, 0x87, 0xB8, 0x42, 0x57, 0xD0)
    case 14 => Multiples(0xFC, 0x82, 0xA3, 0x5F, 0x40, 0xC2)
    case _ => Multiples(0xFE, 0x81, 0xAA, 0x54, 0x4D, 0xCC)
  }

  function GfMulRow8(low: bv8): Multiples {
    match low
    case 0 => Multiples(0x1B, 0x9B, 0xEC, 0xF7, 0xDA, 0x41)
    case 1 => Multiples(0x19, 0x98, 0xE5, 0xFC, 0xD7, 0x4F)
    case 2 => Multiples(0x1F, 0x9D, 0xFE, 0xE1, 0xC0, 0x5D)
    case 3 => Multiples(0x1D, 0x9E, 0xF7, 0xEA, 0xCD, 0x53)
    case 4 => Multiples(0x13, 0x97, 0xC8, 0xDB, 0xEE, 0x79)
    case 5 => Multiples(0x11, 0x94, 0xC1, 0xD0, 0xE3, 0x77)
    case 6 => Multiples(0x17, 0x91, 0xDA, 0xCD, 0xF4, 0x65)
    case 7 => Multiples(0x15, 0x92, 0xD3, 0xC6, 0xF9, 0x6B)
    case 8 => Multiples(0x0B, 0x83, 0xA4, 0xAF, 0xB2, 0x31)
    case 9 => Multiples(0x09, 0x80, 0xAD, 0xA4, 0xBF, 0x3F)
    case 10 => Multiples(0x0F, 0x85, 0xB6, 0xB9, 0xA8, 0x2D)
    case 11 => Multiples(0x0D, 0x86, 0xBF, 0xB2, 0xA5, 0x23)
    case 12 => Multiples(0x03, 0x8F, 0x80, 0x83, 0x86, 0x09)
    case 13 => Multiples(0x01, 0x8C, 0x89, 0x88, 0x8B, 0x07)
    case 14 => Multiples(0x07, 0x89, 0x92, 0x95, 0x9C, 0x15)
    case _ => Multiples(0x05, 0x8A, 0x9B, 0x9E, 0x91, 0x1B)
  }

  function GfMulRow9(low: bv8): Multiples {
    match low
    case 0 => Multiples(0x3B, 0xAB, 0x7C, 0x47, 0x0A, 0xA1)
    case 1 => Multiples(0x39, 0xA8, 0x75, 0x4C, 0x07, 0xAF)
    case 2 => Multiples(0x3F, 0xAD, 0x6E, 0x51, 0x10, 0xBD)
    case 3 => Multiples(0x3D, 0xAE, 0x67, 0x5A, 0x1D, 0xB3)
    case 4 => Multiples(0x33, 0xA7, 0x58, 0x6B, 0x3E, 0x99)
    case 5 => Multiples(0x31, 0xA4, 0x51, 0x60, 0x33, 0x97)
    case 6 => Multiples(0x37, 0xA1, 0x4A, 0x7D, 0x24, 0x85)
    case 7 => Multiples(0x35, 0xA2, 0x43, 0x76, 0x29, 0x8B)
    case 8 => Multiples(0x2B, 0xB3, 0x34, 0x1F, 0x62, 0xD1)
    case 9 => Multiples(0x29, 0xB0, 0x3D, 0x14, 0x6F, 0xDF)
    case 10 => Multiples(0x2F, 0xB5, 0x26, 0x09, 0x78, 0xCD)
    case 11 => Multiples(0x2D, 0xB6, 0x2F, 0x02, 0x75, 0xC3)
    case 12 => Multiples(0x23, 0xBF, 0x10, 0x33, 0x56, 0xE9)
    case 13 => Multiples(0x21, 0xBC, 0x19, 0x38, 0x5B, 0xE7)
    case 14 => Multiples(0x27, 0xB9, 0x02, 0x25, 0x4C, 0xF5)
    case _ => Multiples(0x25, 0xBA, 0x0B, 0x2E, 0x41, 0xFB)
  }

  function GfMulRowA(low: bv8): Multiples {
    match low
    case 0 => Multiples(0x5B, 0xFB, 0xD7, 0x8C, 0x61, 0x9A)
    case 1 => Multiples(0x59, 0xF8, 0xDE, 0x87, 0x6C, 0x94)
    case 2 => Multiples(0x5F, 0xFD, 0xC5, 0x9A, 0x7B, 0x86)
    case 3 => Multiples(0x5D, 0xFE, 0xCC, 0x91, 0x76, 0x88)
    case 4 => Multiples(0x53, 0xF7, 0xF3, 0xA0, 0x55, 0xA2)
    case 5 => Multiples(0x51, 0xF4, 0xFA, 0xAB, 0x58, 0xAC)
    case 6 => Multiples(0x57, 0xF1, 0xE1, 0xB6, 0x4F, 0xBE)
    case 7 => Multiples(0x55, 0xF2, 0xE8, 0xBD, 0x42, 0xB0)
    case 8 => Multiples(0x4B, 0xE3, 0x9F, 0xD4, 0x09, 0xEA)
    case 9 => Multiples(0x49, 0xE0, 0x96, 0xDF, 0x04, 0xE4)
    case 10 => Multiples(0x4F, 0xE5, 0x8D, 0xC2, 0x13, 0xF6)
    case 11 => Multiples(0x4D, 0xE6, 0x84, 0xC9, 0x1E, 0xF8)
    case 12 => Multiples(0x43, 0xEF, 0xBB, 0xF8, 0x3D, 0xD2)
    case 13 => Multiples(0x41, 0xEC, 0xB2, 0xF3, 0x30, 0xDC)
    case 14 => Multiples(0x47, 0xE9, 0xA9, 0xEE, 0x27, 0xCE)
    case _ => Multiples(0x45, 0xEA, 0xA0, 0xE5, 0x2A, 0xC0)
  }

  function GfMulRowB(low: bv8): Multiples {
    match low
    case 0 => Multiples(0x7B, 0xCB, 0x47, 0x3C, 0xB1, 0x7A)
    case 1 => Multiples(0x79, 0xC8, 0x4E, 0x37, 0xBC, 0x74)
    case 2 => Multiples(0x7F, 0xCD, 0x55, 0x2A, 0xAB, 0x66)
    case 3 => Multiples(0x7D, 0xCE, 0x5C, 0x21, 0xA6, 0x68)
    case 4 => Multiples(0x73, 0xC7, 0x63, 0x10, 0x85, 0x42)
    case 5 => Multiples(0x71, 0xC4, 0x6A, 0x1B, 0x88, 0x4C)
    case 6 => Multiples(0x77, 0xC1, 0x71, 0x06, 0x9F, 0x5E)
    case 7 => Multiples(0x75, 0xC2, 0x78, 0x0D, 0x92, 0x50)
    case 8 => Multiples(0x6B, 0xD3, 0x0F, 0x64, 0xD9, 0x0A)
    case 9 => Multiples(0x69, 0xD0, 0x06, 0x6F, 0xD4, 0x04)
    case 10 => Multiples(0x6F, 0xD5, 0x1D, 0x72, 0xC3, 0x16)
    case 11 => Multiples(0x6D, 0xD6, 0x14, 0x79, 0xCE, 0x18)
    case 12 => Multiples(0x63, 0xDF, 0x2B, 0x48, 0xED, 0x32)
    case 13 => Multiples(0x61, 0xDC, 0x22, 0x43, 0xE0, 0x3C)
    case 14 => Multiples(0x67, 0xD9, 0x39, 0x5E, 0xF7, 0x2E)
    case _ => Multiples(0x65, 0xDA, 0x30, 0x55, 0xFA, 0x20)
  }

  function GfMulRowC(low: bv8): Multiples {
    match low
    case 0 => Multiples(0x9B, 0x5B, 0x9A, 0x01, 0xB7, 0xEC)
    case 1 => Multiples(0x99, 0x58, 0x93, 0x0A, 0xBA, 0xE2)
    case 2 => Multiples(0x9F, 0x5D, 0x88, 0x17, 0xAD, 0xF0)
    case 3 => Multiples(0x9D, 0x5E, 0x81, 0x1C, 0xA0, 0xFE)
    case 4 => Multiples(0x93, 0x57, 0xBE, 0x2D, 0x83, 0xD4)
    case 5 => Multiples(0x91, 0x54, 0xB7, 0x26, 0x8E, 0xDA)
    case 6 => Multiples(0x97, 0x51, 0xAC, 0x3B, 0x99, 0xC8)
    case 7 => Multiples(0x95, 0x52, 0xA5, 0x30, 0x94, 0xC6)
    case 8 => Multiples(0x8B, 0x43, 0xD2, 0x59, 0xDF, 0x9C)
    case 9 => Multiples(0x89, 0x40, 0xDB, 0x52, 0xD2, 0x92)
    case 10 => Multiples(0x8F, 0x45, 0xC0, 0x4F, 0xC5, 0x80)
    case 11 => Multiples(0x8D, 0x46, 0xC9, 0x44, 0xC8, 0x8E)
    case 12 => Multiples(0x83, 0x4F, 0xF6, 0x75, 0xEB, 0xA4)
    case 13 => Multiples(0x81, 0x4C, 0xFF, 0x7E, 0xE6, 0xAA)
    case 14 => Multiples(0x87, 0x49, 0xE4, 0x63, 0xF1, 0xB8)
    case _ => Multiples(0x85, 0x4A, 0xED, 0x68, 0xFC, 0xB6)
  }

  function GfMulRowD(low: bv8): Multiples {
    match low
    case 0 => Multiples(0xBB, 0x6B, 0x0A, 0xB1, 0x67, 0x0C)
    case 1 => Multiples(0xB9, 0x68, 0x03, 0xBA, 0x6A, 0x02)
    case 2 => Multiples(0xBF, 0x6D, 0x18, 0xA7, 0x7D, 0x10)
    case 3 => Multiples(0xBD, 0x6E, 0x11, 0xAC, 0x70, 0x1E)
    case 4 => Multiples(0xB3, 0x67, 0x2E, 0x9D, 0x53, 0x34)
    case 5 => Multiples(0xB1, 0x64, 0x27, 0x96, 0x5E, 0x3A)
    case 6 => Multiples(0xB7, 0x61, 0x3C, 0x8B, 0x49, 0x28)
    case 7 => Multiples(0xB5, 0x62, 0x35, 0x80, 0x44, 0x26)
    case 8 => Multiples(0xAB, 0x73, 0x42, 0xE9, 0x0F, 0x7C)
    case 9 => Multiples(0xA9, 0x70, 0x4B, 0xE2, 0x02, 0x72)
    case 10 => Multiples(0xAF, 0x75, 0x50, 0xFF, 0x15, 0x60)
    case 11 => Multiples(0xAD, 0x76, 0x59, 0xF4, 0x18, 0x6E)
    case 12 => Multiples(0xA3, 0x7F, 0x66, 0xC5, 0x3B, 0x44)
    case 13 => Multiples(0xA1, 0x7C, 0x6F, 0xCE, 0x36, 0x4A)
    case 14 => Multiples(0xA7, 0x79, 0x74, 0xD3, 0x21, 0x58)
    case _ => Multiples(0xA5, 0x7A, 0x7D, 0xD8, 0x2C, 0x56)
  }

  function GfMulRowE(low: bv8): Multiples {
    match low
    case 0 => Multiples(0xDB, 0x3B, 0xA1, 0x7A, 0x0C, 0x37)
    case 1 => Multiples(0xD9, 0x38, 0xA8, 0x71, 0x01, 0x39)
    case 2 => Multiples(0xDF, 0x3D, 0xB3, 0x6C, 0x16, 0x2B)
    case 3 => Multiples(0xDD, 0x3E, 0xBA, 0x67, 0x1B, 0x25)
    case 4 => Multiples(0xD3, 0x37, 0x85, 0x56, 0x38, 0x0F)
    case 5 => Multiples(0xD1, 0x34, 0x8C, 0x5D, 0x35, 0x01)
    case 6 => Multiples(0xD7, 0x31, 0x97, 0x40, 0x22, 0x13)
    case 7 => Multiples(0xD5, 0x32, 0x9E, 0x4B, 0x2F, 0x1D)
    case 8 => Multiples(0xCB, 0x23, 0xE9, 0x22, 0x64, 0x47)
    case 9 => Multiples(0xC9, 0x20, 0xE0, 0x29, 0x69, 0x49)
    case 10 => Multiples(0xCF, 0x25, 0xFB, 0x34, 0x7E, 0x5B)
    case 11 => Multiples(0xCD, 0x26, 0xF2, 0x3F, 0x73, 0x55)
    case 12 => Multiples(0xC3, 0x2F, 0xCD, 0x0E, 0x50, 0x7F)
    case 13 => Multiples(0xC1, 0x2C, 0xC4, 0x05, 0x5D, 0x71)
    case 14 => Multiples(0xC7, 0x29, 0xDF, 0x18, 0x4A, 0x63)
    case _ => Multiples(0xC5, 0x2A, 0xD6, 0x13, 0x47, 0x6D)
  }

  function GfMulRowF(low: bv8): Multiples {
    match low
    case 0 => Multiples(0xFB, 0x0B, 0x31, 0xCA, 0xDC, 0xD7)
    case 1 => Multiples(0xF9, 0x08, 0x38, 0xC1, 0xD1, 0xD9)
    case 2 => Multiples(0xFF, 0x0D, 0x23, 0xDC, 0xC6, 0xCB)
    case 3 => Multiples(0xFD, 0x0E, 0x2A, 0xD7, 0xCB, 0xC5)
    case 4 => Multiples(0xF3, 0x07, 0x15, 0xE6, 0xE8, 0xEF)
    case 5 => Multiples(0xF1, 0x04, 0x1C, 0xED, 0xE5, 0xE1)
    case 6 => Multiples(0xF7, 0x01, 0x07, 0xF0, 0xF2, 0xF3)
    case 7 => Multiples(0xF5, 0x02, 0x0E, 0xFB, 0xFF, 0xFD)
    case 8 => Multiples(0xEB, 0x13, 0x79, 0x92, 0xB4, 0xA7)
    case 9 => Multiples(0xE9, 0x10, 0x70, 0x99, 0xB9, 0xA9)
    case 10 => Multiples(0xEF, 0x15, 0x6B, 0x84, 0xAE, 0xBB)
    case 11 => Multiples(0xED, 0x16, 0x62, 0x8F, 0xA3, 0xB5)
    case 12 => Multiples(0xE3, 0x1F, 0x5D, 0xBE, 0x80, 0x9F)
    case 13 => Multiples(0xE1, 0x1C, 0x54, 0xB5, 0x8D, 0x91)
    case 14 => Multiples(0xE7, 0x19, 0x4F, 0xA8, 0x9A, 0x83)
    case _ => Multiples(0xE5, 0x1A, 0x46, 0xA3, 0x97, 0x8D)
  }
}
