// The 8-bit S-boxes of misc/mbedtls/library/aria.c as decision trees over the
// bits of the index (a bit name stands for "this bit is clear"). The first box
// and its inverse are also FSb and RSb of misc/mbedtls/library/aes.c.
module SBoxes {
  // aria_sb1, FSb
  function Sb1(x: bv8): bv8 {
    var b7, b6, b5, b4 := x & 0x80 == 0, x & 0x40 == 0, x & 0x20 == 0, x & 0x10 == 0;
    var b3, b2, b1, b0 := x & 8 == 0, x & 4 == 0, x & 2 == 0, x & 1 == 0;
    if b7 then
      if b6 then
        if b5 then
          if b4 then
            if b3 then
              if b2 then
                if b1 then if b0 then 0x63 else 0x7C else if b0 then 0x77 else 0x7B
              else
                if b1 then if b0 then 0xF2 else 0x6B else if b0 then 0x6F else 0xC5
            else
              if b2 then
                if b1 then if b0 then 0x30 else 0x01 else if b0 then 0x67 else 0x2B
              else
                if b1 then if b0 then 0xFE else 0xD7 else if b0 then 0xAB else 0x76
          else
            if b3 then
              if b2 then
                if b1 then if b0 then 0xCA else 0x82 else if b0 then 0xC9 else 0x7D
              else
                if b1 then if b0 then 0xFA else 0x59 else if b0 then 0x47 else 0xF0
            else
              if b2 then
                if b1 then if b0 then 0xAD else 0xD4 else if b0 then 0xA2 else 0xAF
              else
                if b1 then if b0 then 0x9C else 0xA4 else if b0 then 0x72 else 0xC0
        else
          if b4 then
            if b3 then
              if b2 then
                if b1 then if b0 then 0xB7 else 0xFD else if b0 then 0x93 else 0x26
              else
                if b1 then if b0 then 0x36 else 0x3F else if b0 then 0xF7 else 0xCC
            else
              if b2 then
                if b1 then if b0 then 0x34 else 0xA5 else if b0 then 0xE5 else 0xF1
              else
                if b1 then if b0 then 0x71 else 0xD8 else if b0 then 0x31 else 0x15
          else
            if b3 then
              if b2 then
                if b1 then if b0 then 0x04 else 0xC7 else if b0 then 0x23 else 0xC3
              else
                if b1 then if b0 then 0x18 else 0x96 else if b0 then 0x05 else 0x9A
            else
              if b2 then
                if b1 then if b0 then 0x07 else 0x12 else if b0 then 0x80 else 0xE2
              else
                if b1 then if b0 then 0xEB else 0x27 else if b0 then 0xB2 else 0x75
      else
        if b5 then
          if b4 then
            if b3 then
              if b2 then
                if b1 then if b0 then 0x09 else 0x83 else if b0 then 0x2C else 0x1A
              else
                if b1 then if b0 then 0x1B else 0x6E else if b0 then 0x5A else 0xA0
            else
              if b2 then
                if b1 then if b0 then 0x52 else 0x3B else if b0 then 0xD6 else 0xB3
              else
                if b1 then if b0 then 0x29 else 0xE3 else if b0 then 0x2F else 0x84
          else
            if b3 then
              if b2 then
                if b1 then if b0 then 0x53 else 0xD1 else if b0 then 0x00 else 0xED
              else
                if b1 then if b0 then 0x20 else 0xFC else if b0 then 0xB1 else 0x5B
            else
              if b2 then
                if b1 then if b0 then 0x6A else 0xCB else if b0 then 0xBE else 0x39
              else
                if b1 then if b0 then 0x4A else 0x4C else if b0 then 0x58 else 0xCF
        else
          if b4 then
            if b3 then
              if b2 then
                if b1 then if b0 then 0xD0 else 0xEF else if b0 then 0xAA else 0xFB
              else
                if b1 then if b0 then 0x43 else 0x4D else if b0 then 0x33 else 0x85
            else
              if b2 then
                if b1 then if b0 then 0x45 else 0xF9 else if b0 then 0x02 else 0x7F
              else
                if b1 then if b0 then 0x50 else 0x3C else if b0 then 0x9F else 0xA8
          else
            if b3 then
              if b2 then
                if b1 then if b0 then 0x51 else 0xA3 else if b0 then 0x40 else 0x8F
              else
                if b1 then if b0 then 0x92 else 0x9D else if b0 then 0x38 else 0xF5
            else
              if b2 then
                if b1 then if b0 then 0xBC else 0xB6 else if b0 then 0xDA else 0x21
              else
                if b1 then if b0 then 0x10 else 0xFF else if b0 then 0xF3 else 0xD2
    else
      if b6 then
        if b5 then
          if b4 then
            if b3 then
              if b2 then
                if b1 then if b0 then 0xCD else 0x0C else if b0 then 0x13 else 0xEC
              else
                if b1 then if b0 then 0x5F else 0x97 else if b0 then 0x44 else 0x17
            else
              if b2 then
                if b1 then if b0 then 0xC4 else 0xA7 else if b0 then 0x7E else 0x3D
              else
                if b1 then if b0 then 0x64 else 0x5D else if b0 then 0x19 else 0x73
          else
            if b3 then
              if b2 then
                if b1 then if b0 then 0x60 else 0x81 else if b0 then 0x4F else 0xDC
              else
                if b1 then if b0 then 0x22 else 0x2A else if b0 then 0x90 else 0x88
            else
              if b2 then
                if b1 then if b0 then 0x46 else 0xEE else if b0 then 0xB8 else 0x14
              else
                if b1 then if b0 then 0xDE else 0x5E else if b0 then 0x0B else 0xDB
        else
          if b4 then
            if b3 then
              if b2 then
                if b1 then if b0 then 0xE0 else 0x32 else if b0 then 0x3A else 0x0A
              else
                if b1 then if b0 then 0x49 else 0x06 else if b0 then 0x24 else 0x5C
            else
              if b2 then
                if b1 then if b0 then 0xC2 else 0xD3 else if b0 then 0xAC else 0x62
              else
                if b1 then if b0 then 0x91 else 0x95 else if b0 then 0xE4 else 0x79
          else
            if b3 then
              if b2 then
                if b1 then if b0 then 0xE7 else 0xC8 else if b0 then 0x37 else 0x6D
              else
                if b1 then if b0 then 0x8D else 0xD5 else if b0 then 0x4E else 0xA9
            else
              if b2 then
                if b1 then if b0 then 0x6C else 0x56 else if b0 then 0xF4 else 0xEA
              else
                if b1 then if b0 then 0x65 else 0x7A else if b0 then 0xAE else 0x08
      else
        if b5 then
          if b4 then
            if b3 then
              if b2 then
                if b1 then if b0 then 0xBA else 0x78 else if b0 then 0x25 else 0x2E
              else
                if b1 then if b0 then 0x1C else 0xA6 else if b0 then 0xB4 else 0xC6
            else
              if b2 then
                if b1 then if b0 then 0xE8 else 0xDD else if b0 then 0x74 else 0x1F
              else
                if b1 then if b0 then 0x4B else 0xBD else if b0 then 0x8B else 0x8A
          else
            if b3 then
              if b2 then
                if b1 then if b0 then 0x70 else 0x3E else if b0 then 0xB5 else 0x66
              else
                if b1 then if b0 then 0x48 else 0x03 else if b0 then 0xF6 else 0x0E
            else
              if b2 then
                if b1 then if b0 then 0x61 else 0x35 else if b0 then 0x57 else 0xB9
              else
                if b1 then if b0 then 0x86 else 0xC1 else if b0 then 0x1D else 0x9E
        else
          if b4 then
            if b3 then
              if b2 then
                if b1 then if b0 then 0xE1 else 0xF8 else if b0 then 0x98 else 0x11
              else
                if b1 then if b0 then 0x69 else 0xD9 else if b0 then 0x8E else 0x94
            else
              if b2 then
                if b1 then if b0 then 0x9B else 0x1E else if b0 then 0x87 else 0xE9
              else
                if b1 then if b0 then 0xCE else 0x55 else if b0 then 0x28 else 0xDF
          else
            if b3 then
              if b2 then
                if b1 then if b0 then 0x8C else 0xA1 else if b0 then 0x89 else 0x0D
              else
                if b1 then if b0 then 0xBF else 0xE6 else if b0 then 0x42 else 0x68
            else
              if b2 then
                if b1 then if b0 then 0x41 else 0x99 else if b0 then 0x2D else 0x0F
              else
                if b1 then if b0 then 0xB0 else 0x54 else if b0 then 0xBB else 0x16
  }

  // aria_is1, RSb
  function Is1(x: bv8): bv8 {
    var b7, b6, b5, b4 := x & 0x80 == 0, x & 0x40 == 0, x & 0x20 == 0, x & 0x10 == 0;
    var b3, b2, b1, b0 := x & 8 == 0, x & 4 == 0, x & 2 == 0, x & 1 == 0;
    if b7 then
      if b6 then
        if b5 then
          if b4 then
            if b3 then
              if b2 then
                if b1 then if b0 then 0x52 else 0x09 else if b0 then 0x6A else 0xD5
              else
                if b1 then if b0 then 0x30 else 0x36 else if b0 then 0xA5 else 0x38
            else
              if b2 then
                if b1 then if b0 then 0xBF else 0x40 else if b0 then 0xA3 else 0x9E
              else
                if b1 then if b0 then 0x81 else 0xF3 else if b0 then 0xD7 else 0xFB
          else
            if b3 then
              if b2 then
                if b1 then if b0 then 0x7C else 0xE3 else if b0 then 0x39 else 0x82
              else
                if b1 then if b0 then 0x9B else 0x2F else if b0 then 0xFF else 0x87
            else
              if b2 then
                if b1 then if b0 then 0x34 else 0x8E else if b0 then 0x43 else 0x44
              else
                if b1 then if b0 then 0xC4 else 0xDE else if b0 then 0xE9 else 0xCB
        else
          if b4 then
            if b3 then
              if b2 then
                if b1 then if b0 then 0x54 else 0x7B else if b0 then 0x94 else 0x32
              else
                if b1 then if b0 then 0xA6 else 0xC2 else if b0 then 0x23 else 0x3D
            else
              if b2 then
                if b1 then if b0 then 0xEE else 0x4C else if b0 then 0x95 else 0x0B
              else
                if b1 then if b0 then 0x42 else 0xFA else if b0 then 0xC3 else 0x4E
          else
            if b3 then
              if b2 then
                if b1 then if b0 then 0x08 else 0x2E else if b0 then 0xA1 else 0x66
              else
                if b1 then if b0 then 0x28 else 0xD9 else if b0 then 0x24 else 0xB2
            else
              if b2 then
                if b1 then if b0 then 0x76 else 0x5B else if b0 then 0xA2 else 0x49
              else
                if b1 then if b0 then 0x6D else 0x8B else if b0 then 0xD1 else 0x25
      else
        if b5 then
          if b4 then
            if b3 then
              if b2 then
                if b1 then if b0 then 0x72 else 0xF8 else if b0 then 0xF6 else 0x64
              else
                if b1 then if b0 then 0x86 else 0x68 else if b0 then 0x98 else 0x16
            else
              if b2 then
                if b1 then if b0 then 0xD4 else 0xA4 else if b0 then 0x5C else 0xCC
              else
                if b1 then if b0 then 0x5D else 0x65 else if b0 then 0xB6 else 0x92
          else
            if b3 then
              if b2 then
                if b1 then if b0 then 0x6C else 0x70 else if b0 then 0x48 else 0x50
              else
                if b1 then if b0 then 0xFD else 0xED else if b0 then 0xB9 else 0xDA
            else
              if b2 then
                if b1 then if b0 then 0x5E else 0x15 else if b0 then 0x46 else 0x57
              else
                if b1 then if b0 then 0xA7 else 0x8D else if b0 then 0x9D else 0x84
        else
          if b4 then
            if b3 then
              if b2 then
                if b1 then if b0 then 0x90 else 0xD8 else if b0 then 0xAB else 0x00
              else
                if b1 then if b0 then 0x8C else 0xBC else if b0 then 0xD3 else 0x0A
            else
              if b2 then
                if b1 then if b0 then 0xF7 else 0xE4 else if b0 then 0x58 else 0x05
              else
                if b1 then if b0 then 0xB8 else 0xB3 else if b0 then 0x45 else 0x06
          else
            if b3 then
              if b2 then
                if b1 then if b0 then 0xD0 else 0x2C else if b0 then 0x1E else 0x8F
              else
                if b1 then if b0 then 0xCA else 0x3F else if b0 then 0x0F else 0x02
            else
              if b2 then
                if b1 then if b0 then 0xC1 else 0xAF else if b0 then 0xBD else 0x03
              else
                if b1 then if b0 then 0x01 else 0x13 else if b0 then 0x8A else 0x6B
    else
      if b6 then
        if b5 then
          if b4 then
            if b3 then
              if b2 then
                if b1 then if b0 then 0x3A else 0x91 else if b0 then 0x11 else 0x41
              else
                if b1 then if b0 then 0x4F else 0x67 else if b0 then 0xDC else 0xEA
            else
              if b2 then
                if b1 then if b0 then 0x97 else 0xF2 else if b0 then 0xCF else 0xCE
              else
                if b1 then if b0 then 0xF0 else 0xB4 else if b0 then 0xE6 else 0x73
          else
            if b3 then
              if b2 then
                if b1 then if b0 then 0x96 else 0xAC else if b0 then 0x74 else 0x22
              else
                if b1 then if b0 then 0xE7 else 0xAD else if b0 then 0x35 else 0x85
            else
              if b2 then
                if b1 then if b0 then 0xE2 else 0xF9 else if b0 then 0x37 else 0xE8
              else
                if b1 then if b0 then 0x1C else 0x75 else if b0 then 0xDF else 0x6E
        else
          if b4 then
            if b3 then
              if b2 then
                if b1 then if b0 then 0x47 else 0xF1 else if b0 then 0x1A else 0x71
              else
                if b1 then if b0 then 0x1D else 0x29 else if b0 then 0xC5 else 0x89
            else
              if b2 then
                if b1 then if b0 then 0x6F else 0xB7 else if b0 then 0x62 else 0x0E
              else
                if b1 then if b0 then 0xAA else 0x18 else if b0 then 0xBE else 0x1B
          else
            if b3 then
              if b2 then
                if b1 then if b0 then 0xFC else 0x56 else if b0 then 0x3E else 0x4B
              else
                if b1 then if b0 then 0xC6 else 0xD2 else if b0 then 0x79 else 0x20
            else
              if b2 then
                if b1 then if b0 then 0x9A else 0xDB else if b0 then 0xC0 else 0xFE
              else
                if b1 then if b0 then 0x78 else 0xCD else if b0 then 0x5A else 0xF4
      else
        if b5 then
          if b4 then
            if b3 then
              if b2 then
                if b1 then if b0 then 0x1F else 0xDD else if b0 then 0xA8 else 0x33
              else
                if b1 then if b0 then 0x88 else 0x07 else if b0 then 0xC7 else 0x31
            else
              if b2 then
                if b1 then if b0 then 0xB1 else 0x12 else if b0 then 0x10 else 0x59
              else
                if b1 then if b0 then 0x27 else 0x80 else if b0 then 0xEC else 0x5F
          else
            if b3 then
              if b2 then
                if b1 then if b0 then 0x60 else 0x51 else if b0 then 0x7F else 0xA9
              else
                if b1 then if b0 then 0x19 else 0xB5 else if b0 then 0x4A else 0x0D
            else
              if b2 then
                if b1 then if b0 then 0x2D else 0xE5 else if b0 then 0x7A else 0x9F
              else
                if b1 then if b0 then 0x93 else 0xC9 else if b0 then 0x9C else 0xEF
        else
          if b4 then
            if b3 then
              if b2 then
                if b1 then if b0 then 0xA0 else 0xE0 else if b0 then 0x3B else 0x4D
              else
                if b1 then if b0 then 0xAE else 0x2A else if b0 then 0xF5 else 0xB0
            else
              if b2 then
                if b1 then if b0 then 0xC8 else 0xEB else if b0 then 0xBB else 0x3C
              else
                if b1 then if b0 then 0x83 else 0x53 else if b0 then 0x99 else 0x61
          else
            if b3 then
              if b2 then
                if b1 then if b0 then 0x17 else 0x2B else if b0 then 0x04 else 0x7E
              else
                if b1 then if b0 then 0xBA else 0x77 else if b0 then 0xD6 else 0x26
            else
              if b2 then
                if b1 then if b0 then 0xE1 else 0x69 else if b0 then 0x14 else 0x63
              else
                if b1 then if b0 then 0x55 else 0x21 else if b0 then 0x0C else 0x7D
  }

  // aria_sb2
  function Sb2(x: bv8): bv8 {
    var b7, b6, b5, b4 := x & 0x80 == 0, x & 0x40 == 0, x & 0x20 == 0, x & 0x10 == 0;
    var b3, b2, b1, b0 := x & 8 == 0, x & 4 == 0, x & 2 == 0, x & 1 == 0;
    if b7 then
      if b6 then
        if b5 then
          if b4 then
            if b3 then
              if b2 then
                if b1 then if b0 then 0xE2 else 0x4E else if b0 then 0x54 else 0xFC
              else
                if b1 then if b0 then 0x94 else 0xC2 else if b0 then 0x4A else 0xCC
            else
              if b2 then
                if b1 then if b0 then 0x62 else 0x0D else if b0 then 0x6A else 0x46
              else
                if b1 then if b0 then 0x3C else 0x4D else if b0 then 0x8B else 0xD1
          else
            if b3 then
              if b2 then
                if b1 then if b0 then 0x5E else 0xFA else if b0 then 0x64 else 0xCB
              else
                if b1 then if b0 then 0xB4 else 0x97 else if b0 then 0xBE else 0x2B
            else
              if b2 then
                if b1 then if b0 then 0xBC else 0x77 else if b0 then 0x2E else 0x03
              else
                if b1 then if b0 then 0xD3 else 0x19 else if b0 then 0x59 else 0xC1
        else
          if b4 then
            if b3 then
              if b2 then
                if b1 then if b0 then 0x1D else 0x06 else if b0 then 0x41 else 0x6B
              else
                if b1 then if b0 then 0x55 else 0xF0 else if b0 then 0x99 else 0x69
            else
              if b2 then
                if b1 then if b0 then 0xEA else 0x9C else if b0 then 0x18 else 0xAE
              else
                if b1 then if b0 then 0x63 else 0xDF else if b0 then 0xE7 else 0xBB
          else
            if b3 then
              if b2 then
                if b1 then if b0 then 0x00 else 0x73 else if b0 then 0x66 else 0xFB
              else
                if b1 then if b0 then 0x96 else 0x4C else if b0 then 0x85 else 0xE4
            else
              if b2 then
                if b1 then if b0 then 0x3A else 0x09 else if b0 then 0x45 else 0xAA
              else
                if b1 then if b0 then 0x0F else 0xEE else if b0 then 0x10 else 0xEB
      else
        if b5 then
          if b4 then
            if b3 then
              if b2 then
                if b1 then if b0 then 0x2D else 0x7F else if b0 then 0xF4 else 0x29
              else
                if b1 then if b0 then 0xAC else 0xCF else if b0 then 0xAD else 0x91
            else
              if b2 then
                if b1 then if b0 then 0x8D else 0x78 else if b0 then 0xC8 else 0x95
              else
                if b1 then if b0 then 0xF9 else 0x2F else if b0 then 0xCE else 0xCD
          else
            if b3 then
              if b2 then
                if b1 then if b0 then 0x08 else 0x7A else if b0 then 0x88 else 0x38
              else
                if b1 then if b0 then 0x5C else 0x83 else if b0 then 0x2A else 0x28
            else
              if b2 then
                if b1 then if b0 then 0x47 else 0xDB else if b0 then 0xB8 else 0xC7
              else
                if b1 then if b0 then 0x93 else 0xA4 else if b0 then 0x12 else 0x53
        else
          if b4 then
            if b3 then
              if b2 then
                if b1 then if b0 then 0xFF else 0x87 else if b0 then 0x0E else 0x31
              else
                if b1 then if b0 then 0x36 else 0x21 else if b0 then 0x58 else 0x48
            else
              if b2 then
                if b1 then if b0 then 0x01 else 0x8E else if b0 then 0x37 else 0x74
              else
                if b1 then if b0 then 0x32 else 0xCA else if b0 then 0xE9 else 0xB1
          else
            if b3 then
              if b2 then
                if b1 then if b0 then 0xB7 else 0xAB else if b0 then 0x0C else 0xD7
              else
                if b1 then if b0 then 0xC4 else 0x56 else if b0 then 0x42 else 0x26
            else
              if b2 then
                if b1 then if b0 then 0x07 else 0x98 else if b0 then 0x60 else 0xD9
              else
                if b1 then if b0 then 0xB6 else 0xB9 else if b0 then 0x11 else 0x40
    else
      if b6 then
        if b5 then
          if b4 then
            if b3 then
              if b2 then
                if b1 then if b0 then 0xEC else 0x20 else if b0 then 0x8C else 0xBD
              else
                if b1 then if b0 then 0xA0 else 0xC9 else if b0 then 0x84 else 0x04
            else
              if b2 then
                if b1 then if b0 then 0x49 else 0x23 else if b0 then 0xF1 else 0x4F
              else
                if b1 then if b0 then 0x50 else 0x1F else if b0 then 0x13 else 0xDC
          else
            if b3 then
              if b2 then
                if b1 then if b0 then 0xD8 else 0xC0 else if b0 then 0x9E else 0x57
              else
                if b1 then if b0 then 0xE3 else 0xC3 else if b0 then 0x7B else 0x65
            else
              if b2 then
                if b1 then if b0 then 0x3B else 0x02 else if b0 then 0x8F else 0x3E
              else
                if b1 then if b0 then 0xE8 else 0x25 else if b0 then 0x92 else 0xE5
        else
          if b4 then
            if b3 then
              if b2 then
                if b1 then if b0 then 0x15 else 0xDD else if b0 then 0xFD else 0x17
              else
                if b1 then if b0 then 0xA9 else 0xBF else if b0 then 0xD4 else 0x9A
            else
              if b2 then
                if b1 then if b0 then 0x7E else 0xC5 else if b0 then 0x39 else 0x67
              else
                if b1 then if b0 then 0xFE else 0x76 else if b0 then 0x9D else 0x43
          else
            if b3 then
              if b2 then
                if b1 then if b0 then 0xA7 else 0xE1 else if b0 then 0xD0 else 0xF5
              else
                if b1 then if b0 then 0x68 else 0xF2 else if b0 then 0x1B else 0x34
            else
              if b2 then
                if b1 then if b0 then 0x70 else 0x05 else if b0 then 0xA3 else 0x8A
              else
                if b1 then if b0 then 0xD5 else 0x79 else if b0 then 0x86 else 0xA8
      else
        if b5 then
          if b4 then
            if b3 then
              if b2 then
                if b1 then if b0 then 0x30 else 0xC6 else if b0 then 0x51 else 0x4B
              else
                if b1 then if b0 then 0x1E else 0xA6 else if b0 then 0x27 else 0xF6
            else
              if b2 then
                if b1 then if b0 then 0x35 else 0xD2 else if b0 then 0x6E else 0x24
              else
                if b1 then if b0 then 0x16 else 0x82 else if b0 then 0x5F else 0xDA
          else
            if b3 then
              if b2 then
                if b1 then if b0 then 0xE6 else 0x75 else if b0 then 0xA2 else 0xEF
              else
                if b1 then if b0 then 0x2C else 0xB2 else if b0 then 0x1C else 0x9F
            else
              if b2 then
                if b1 then if b0 then 0x5D else 0x6F else if b0 then 0x80 else 0x0A
              else
                if b1 then if b0 then 0x72 else 0x44 else if b0 then 0x9B else 0x6C
        else
          if b4 then
            if b3 then
              if b2 then
                if b1 then if b0 then 0x90 else 0x0B else if b0 then 0x5B else 0x33
              else
                if b1 then if b0 then 0x7D else 0x5A else if b0 then 0x52 else 0xF3
            else
              if b2 then
                if b1 then if b0 then 0x61 else 0xA1 else if b0 then 0xF7 else 0xB0
              else
                if b1 then if b0 then 0xD6 else 0x3F else if b0 then 0x7C else 0x6D
          else
            if b3 then
              if b2 then
                if b1 then if b0 then 0xED else 0x14 else if b0 then 0xE0 else 0xA5
              else
                if b1 then if b0 then 0x3D else 0x22 else if b0 then 0xB3 else 0xF8
            else
              if b2 then
                if b1 then if b0 then 0x89 else 0xDE else if b0 then 0x71 else 0x1A
              else
                if b1 then if b0 then 0xAF else 0xBA else if b0 then 0xB5 else 0x81
  }

  // aria_is2
  function Is2(x: bv8): bv8 {
    var b7, b6, b5, b4 := x & 0x80 == 0, x & 0x40 == 0, x & 0x20 == 0, x & 0x10 == 0;
    var b3, b2, b1, b0 := x & 8 == 0, x & 4 == 0, x & 2 == 0, x & 1 == 0;
    if b7 then
      if b6 then
        if b5 then
          if b4 then
            if b3 then
              if b2 then
                if b1 then if b0 then 0x30 else 0x68 else if b0 then 0x99 else 0x1B
              else
                if b1 then if b0 then 0x87 else 0xB9 else if b0 then 0x21 else 0x78
            else
              if b2 then
                if b1 then if b0 then 0x50 else 0x39 else if b0 then 0xDB else 0xE1
              else
                if b1 then if b0 then 0x72 else 0x09 else if b0 then 0x62 else 0x3C
          else
            if b3 then
              if b2 then
                if b1 then if b0 then 0x3E else 0x7E else if b0 then 0x5E else 0x8E
              else
                if b1 then if b0 then 0xF1 else 0xA0 else if b0 then 0xCC else 0xA3
            else
              if b2 then
                if b1 then if b0 then 0x2A else 0x1D else if b0 then 0xFB else 0xB6
              else
                if b1 then if b0 then 0xD6 else 0x20 else if b0 then 0xC4 else 0x8D
        else
          if b4 then
            if b3 then
              if b2 then
                if b1 then if b0 then 0x81 else 0x65 else if b0 then 0xF5 else 0x89
              else
                if b1 then if b0 then 0xCB else 0x9D else if b0 then 0x77 else 0xC6
            else
              if b2 then
                if b1 then if b0 then 0x57 else 0x43 else if b0 then 0x56 else 0x17
              else
                if b1 then if b0 then 0xD4 else 0x40 else if b0 then 0x1A else 0x4D
          else
            if b3 then
              if b2 then
                if b1 then if b0 then 0xC0 else 0x63 else if b0 then 0x6C else 0xE3
              else
                if b1 then if b0 then 0xB7 else 0xC8 else if b0 then 0x64 else 0x6A
            else
              if b2 then
                if b1 then if b0 then 0x53 else 0xAA else if b0 then 0x38 else 0x98
              else
                if b1 then if b0 then 0x0C else 0xF4 else if b0 then 0x9B else 0xED
      else
        if b5 then
          if b4 then
            if b3 then
              if b2 then
                if b1 then if b0 then 0x7F else 0x22 else if b0 then 0x76 else 0xAF
              else
                if b1 then if b0 then 0xDD else 0x3A else if b0 then 0x0B else 0x58
            else
              if b2 then
                if b1 then if b0 then 0x67 else 0x88 else if b0 then 0x06 else 0xC3
              else
                if b1 then if b0 then 0x35 else 0x0D else if b0 then 0x01 else 0x8B
          else
            if b3 then
              if b2 then
                if b1 then if b0 then 0x8C else 0xC2 else if b0 then 0xE6 else 0x5F
              else
                if b1 then if b0 then 0x02 else 0x24 else if b0 then 0x75 else 0x93
            else
              if b2 then
                if b1 then if b0 then 0x66 else 0x1E else if b0 then 0xE5 else 0xE2
              else
                if b1 then if b0 then 0x54 else 0xD8 else if b0 then 0x10 else 0xCE
        else
          if b4 then
            if b3 then
              if b2 then
                if b1 then if b0 then 0x7A else 0xE8 else if b0 then 0x08 else 0x2C
              else
                if b1 then if b0 then 0x12 else 0x97 else if b0 then 0x32 else 0xAB
            else
              if b2 then
                if b1 then if b0 then 0xB4 else 0x27 else if b0 then 0x0A else 0x23
              else
                if b1 then if b0 then 0xDF else 0xEF else if b0 then 0xCA else 0xD9
          else
            if b3 then
              if b2 then
                if b1 then if b0 then 0xB8 else 0xFA else if b0 then 0xDC else 0x31
              else
                if b1 then if b0 then 0x6B else 0xD1 else if b0 then 0xAD else 0x19
            else
              if b2 then
                if b1 then if b0 then 0x49 else 0xBD else if b0 then 0x51 else 0x96
              else
                if b1 then if b0 then 0xEE else 0xE4 else if b0 then 0xA8 else 0x41
    else
      if b6 then
        if b5 then
          if b4 then
            if b3 then
              if b2 then
                if b1 then if b0 then 0xDA else 0xFF else if b0 then 0xCD else 0x55
              else
                if b1 then if b0 then 0x86 else 0x36 else if b0 then 0xBE else 0x61
            else
              if b2 then
                if b1 then if b0 then 0x52 else 0xF8 else if b0 then 0xBB else 0x0E
              else
                if b1 then if b0 then 0x82 else 0x48 else if b0 then 0x69 else 0x9A
          else
            if b3 then
              if b2 then
                if b1 then if b0 then 0xE0 else 0x47 else if b0 then 0x9E else 0x5C
              else
                if b1 then if b0 then 0x04 else 0x4B else if b0 then 0x34 else 0x15
            else
              if b2 then
                if b1 then if b0 then 0x79 else 0x26 else if b0 then 0xA7 else 0xDE
              else
                if b1 then if b0 then 0x29 else 0xAE else if b0 then 0x92 else 0xD7
        else
          if b4 then
            if b3 then
              if b2 then
                if b1 then if b0 then 0x84 else 0xE9 else if b0 then 0xD2 else 0xBA
              else
                if b1 then if b0 then 0x5D else 0xF3 else if b0 then 0xC5 else 0xB0
            else
              if b2 then
                if b1 then if b0 then 0xBF else 0xA4 else if b0 then 0x3B else 0x71
              else
                if b1 then if b0 then 0x44 else 0x46 else if b0 then 0x2B else 0xFC
          else
            if b3 then
              if b2 then
                if b1 then if b0 then 0xEB else 0x6F else if b0 then 0xD5 else 0xF6
              else
                if b1 then if b0 then 0x14 else 0xFE else if b0 then 0x7C else 0x70
            else
              if b2 then
                if b1 then if b0 then 0x5A else 0x7D else if b0 then 0xFD else 0x2F
              else
                if b1 then if b0 then 0x18 else 0x83 else if b0 then 0x16 else 0xA5
      else
        if b5 then
          if b4 then
            if b3 then
              if b2 then
                if b1 then if b0 then 0x91 else 0x1F else if b0 then 0x05 else 0x95
              else
                if b1 then if b0 then 0x74 else 0xA9 else if b0 then 0xC1 else 0x5B
            else
              if b2 then
                if b1 then if b0 then 0x4A else 0x85 else if b0 then 0x6D else 0x13
              else
                if b1 then if b0 then 0x07 else 0x4F else if b0 then 0x4E else 0x45
          else
            if b3 then
              if b2 then
                if b1 then if b0 then 0xB2 else 0x0F else if b0 then 0xC9 else 0x1C
              else
                if b1 then if b0 then 0xA6 else 0xBC else if b0 then 0xEC else 0x73
            else
              if b2 then
                if b1 then if b0 then 0x90 else 0x7B else if b0 then 0xCF else 0x59
              else
                if b1 then if b0 then 0x8F else 0xA1 else if b0 then 0xF9 else 0x2D
        else
          if b4 then
            if b3 then
              if b2 then
                if b1 then if b0 then 0xF2 else 0xB1 else if b0 then 0x00 else 0x94
              else
                if b1 then if b0 then 0x37 else 0x9F else if b0 then 0xD0 else 0x2E
            else
              if b2 then
                if b1 then if b0 then 0x9C else 0x6E else if b0 then 0x28 else 0x3F
              else
                if b1 then if b0 then 0x80 else 0xF0 else if b0 then 0x3D else 0xD3
          else
            if b3 then
              if b2 then
                if b1 then if b0 then 0x25 else 0x8A else if b0 then 0xB5 else 0xE7
              else
                if b1 then if b0 then 0x42 else 0xB3 else if b0 then 0xC7 else 0xEA
            else
              if b2 then
                if b1 then if b0 then 0xF7 else 0x4C else if b0 then 0x11 else 0x33
              else
                if b1 then if b0 then 0x03 else 0xA2 else if b0 then 0xAC else 0x60
  }

  lemma {:induction false} Is1Sb1(x: bv8)
    ensures Is1(Sb1(x)) == x && Sb1(Is1(x)) == x
  {
  }

  lemma {:induction false} Is2Sb2(x: bv8)
    ensures Is2(Sb2(x)) == x && Sb2(Is2(x)) == x
  {
  }
}
