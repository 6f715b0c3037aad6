/** The Huffman code of the program's tables (Appendix B of RFC 7541) has all the properties that
    coding and decoding rely on: it is canonical, the codewords of each length being consecutive
    numbers that start where those of the length before it end. */
module HuffmanTable {
  import opened Wrappers
  import opened Base128
  import opened Huffman
  import opened HuffmanRoundTrip
  import HuffmanRoutines

  function Codes0(c: nat): Code {
    match c
    case 0 => Code(0x1ff8, 13) case 1 => Code(0x7fffd8, 23) case 2 => Code(0xfffffe2, 28)
    case 3 => Code(0xfffffe3, 28) case 4 => Code(0xfffffe4, 28) case 5 => Code(0xfffffe5, 28)
    case 6 => Code(0xfffffe6, 28) case 7 => Code(0xfffffe7, 28) case 8 => Code(0xfffffe8, 28)
    case 9 => Code(0xffffea, 24) case 10 => Code(0x3ffffffc, 30) case 11 => Code(0xfffffe9, 28)
    case 12 => Code(0xfffffea, 28) case 13 => Code(0x3ffffffd, 30) case 14 => Code(0xfffffeb, 28)
    case 15 => Code(0xfffffec, 28) case 16 => Code(0xfffffed, 28) case 17 => Code(0xfffffee, 28)
    case 18 => Code(0xfffffef, 28) case 19 => Code(0xffffff0, 28) case 20 => Code(0xffffff1, 28)
    case 21 => Code(0xffffff2, 28) case 22 => Code(0x3ffffffe, 30) case 23 => Code(0xffffff3, 28)
    case 24 => Code(0xffffff4, 28) case 25 => Code(0xffffff5, 28) case 26 => Code(0xffffff6, 28)
    case 27 => Code(0xffffff7, 28) case 28 => Code(0xffffff8, 28) case 29 => Code(0xffffff9, 28)
    case 30 => Code(0xffffffa, 28) case _ => Code(0xffffffb, 28)
  }

  function Codes32(c: nat): Code {
    match c
    case 32 => Code(0x14, 6) case 33 => Code(0x3f8, 10) case 34 => Code(0x3f9, 10)
    case 35 => Code(0xffa, 12) case 36 => Code(0x1ff9, 13) case 37 => Code(0x15, 6)
    case 38 => Code(0xf8, 8) case 39 => Code(0x7fa, 11) case 40 => Code(0x3fa, 10)
    case 41 => Code(0x3fb, 10) case 42 => Code(0xf9, 8) case 43 => Code(0x7fb, 11)
    case 44 => Code(0xfa, 8) case 45 => Code(0x16, 6) case 46 => Code(0x17, 6)
    case 47 => Code(0x18, 6) case 48 => Code(0x0, 5) case 49 => Code(0x1, 5)
    case 50 => Code(0x2, 5) case 51 => Code(0x19, 6) case 52 => Code(0x1a, 6)
    case 53 => Code(0x1b, 6) case 54 => Code(0x1c, 6) case 55 => Code(0x1d, 6)
    case 56 => Code(0x1e, 6) case 57 => Code(0x1f, 6) case 58 => Code(0x5c, 7)
    case 59 => Code(0xfb, 8) case 60 => Code(0x7ffc, 15) case 61 => Code(0x20, 6)
    case 62 => Code(0xffb, 12) case _ => Code(0x3fc, 10)
  }

  function Codes64(c: nat): Code {
    match c
    case 64 => Code(0x1ffa, 13) case 65 => Code(0x21, 6) case 66 => Code(0x5d, 7)
    case 67 => Code(0x5e, 7) case 68 => Code(0x5f, 7) case 69 => Code(0x60, 7)
    case 70 => Code(0x61, 7) case 71 => Code(0x62, 7) case 72 => Code(0x63, 7)
    case 73 => Code(0x64, 7) case 74 => Code(0x65, 7) case 75 => Code(0x66, 7)
    case 76 => Code(0x67, 7) case 77 => Code(0x68, 7) case 78 => Code(0x69, 7)
    case 79 => Code(0x6a, 7) case 80 => Code(0x6b, 7) case 81 => Code(0x6c, 7)
    case 82 => Code(0x6d, 7) case 83 => Code(0x6e, 7) case 84 => Code(0x6f, 7)
    case 85 => Code(0x70, 7) case 86 => Code(0x71, 7) case 87 => Code(0x72, 7)
    case 88 => Code(0xfc, 8) case 89 => Code(0x73, 7) case 90 => Code(0xfd, 8)
    case 91 => Code(0x1ffb, 13) case 92 => Code(0x7fff0, 19) case 93 => Code(0x1ffc, 13)
    case 94 => Code(0x3ffc, 14) case _ => Code(0x22, 6)
  }

  function Codes96(c: nat): Code {
    match c
    case 96 => Code(0x7ffd, 15) case 97 => Code(0x3, 5) case 98 => Code(0x23, 6)
    case 99 => Code(0x4, 5) case 100 => Code(0x24, 6) case 101 => Code(0x5, 5)
    case 102 => Code(0x25, 6) case 103 => Code(0x26, 6) case 104 => Code(0x27, 6)
    case 105 => Code(0x6, 5) case 106 => Code(0x74, 7) case 107 => Code(0x75, 7)
    case 108 => Code(0x28, 6) case 109 => Code(0x29, 6) case 110 => Code(0x2a, 6)
    case 111 => Code(0x7, 5) case 112 => Code(0x2b, 6) case 113 => Code(0x76, 7)
    case 114 => Code(0x2c, 6) case 115 => Code(0x8, 5) case 116 => Code(0x9, 5)
    case 117 => Code(0x2d, 6) case 118 => Code(0x77, 7) case 119 => Code(0x78, 7)
    case 120 => Code(0x79, 7) case 121 => Code(0x7a, 7) case 122 => Code(0x7b, 7)
    case 123 => Code(0x7ffe, 15) case 124 => Code(0x7fc, 11) case 125 => Code(0x3ffd, 14)
    case 126 => Code(0x1ffd, 13) case _ => Code(0xffffffc, 28)
  }

  function Codes128(c: nat): Code {
    match c
    case 128 => Code(0xfffe6, 20) case 129 => Code(0x3fffd2, 22) case 130 => Code(0xfffe7, 20)
    case 131 => Code(0xfffe8, 20) case 132 => Code(0x3fffd3, 22) case 133 => Code(0x3fffd4, 22)
    case 134 => Code(0x3fffd5, 22) case 135 => Code(0x7fffd9, 23) case 136 => Code(0x3fffd6, 22)
    case 137 => Code(0x7fffda, 23) case 138 => Code(0x7fffdb, 23) case 139 => Code(0x7fffdc, 23)
    case 140 => Code(0x7fffdd, 23) case 141 => Code(0x7fffde, 23) case 142 => Code(0xffffeb, 24)
    case 143 => Code(0x7fffdf, 23) case 144 => Code(0xffffec, 24) case 145 => Code(0xffffed, 24)
    case 146 => Code(0x3fffd7, 22) case 147 => Code(0x7fffe0, 23) case 148 => Code(0xffffee, 24)
    case 149 => Code(0x7fffe1, 23) case 150 => Code(0x7fffe2, 23) case 151 => Code(0x7fffe3, 23)
    case 152 => Code(0x7fffe4, 23) case 153 => Code(0x1fffdc, 21) case 154 => Code(0x3fffd8, 22)
    case 155 => Code(0x7fffe5, 23) case 156 => Code(0x3fffd9, 22) case 157 => Code(0x7fffe6, 23)
    case 158 => Code(0x7fffe7, 23) case _ => Code(0xffffef, 24)
  }

  function Codes160(c: nat): Code {
    match c
    case 160 => Code(0x3fffda, 22) case 161 => Code(0x1fffdd, 21) case 162 => Code(0xfffe9, 20)
    case 163 => Code(0x3fffdb, 22) case 164 => Code(0x3fffdc, 22) case 165 => Code(0x7fffe8, 23)
    case 166 => Code(0x7fffe9, 23) case 167 => Code(0x1fffde, 21) case 168 => Code(0x7fffea, 23)
    case 169 => Code(0x3fffdd, 22) case 170 => Code(0x3fffde, 22) case 171 => Code(0xfffff0, 24)
    case 172 => Code(0x1fffdf, 21) case 173 => Code(0x3fffdf, 22) case 174 => Code(0x7fffeb, 23)
    case 175 => Code(0x7fffec, 23) case 176 => Code(0x1fffe0, 21) case 177 => Code(0x1fffe1, 21)
    case 178 => Code(0x3fffe0, 22) case 179 => Code(0x1fffe2, 21) case 180 => Code(0x7fffed, 23)
    case 181 => Code(0x3fffe1, 22) case 182 => Code(0x7fffee, 23) case 183 => Code(0x7fffef, 23)
    case 184 => Code(0xfffea, 20) case 185 => Code(0x3fffe2, 22) case 186 => Code(0x3fffe3, 22)
    case 187 => Code(0x3fffe4, 22) case 188 => Code(0x7ffff0, 23) case 189 => Code(0x3fffe5, 22)
    case 190 => Code(0x3fffe6, 22) case _ => Code(0x7ffff1, 23)
  }

  function Codes192(c: nat): Code {
    match c
    case 192 => Code(0x3ffffe0, 26) case 193 => Code(0x3ffffe1, 26) case 194 => Code(0xfffeb, 20)
    case 195 => Code(0x7fff1, 19) case 196 => Code(0x3fffe7, 22) case 197 => Code(0x7ffff2, 23)
    case 198 => Code(0x3fffe8, 22) case 199 => Code(0x1ffffec, 25) case 200 => Code(0x3ffffe2, 26)
    case 201 => Code(0x3ffffe3, 26) case 202 => Code(0x3ffffe4, 26) case 203 => Code(0x7ffffde, 27)
    case 204 => Code(0x7ffffdf, 27) case 205 => Code(0x3ffffe5, 26) case 206 => Code(0xfffff1, 24)
    case 207 => Code(0x1ffffed, 25) case 208 => Code(0x7fff2, 19) case 209 => Code(0x1fffe3, 21)
    case 210 => Code(0x3ffffe6, 26) case 211 => Code(0x7ffffe0, 27) case 212 => Code(0x7ffffe1, 27)
    case 213 => Code(0x3ffffe7, 26) case 214 => Code(0x7ffffe2, 27) case 215 => Code(0xfffff2, 24)
    case 216 => Code(0x1fffe4, 21) case 217 => Code(0x1fffe5, 21) case 218 => Code(0x3ffffe8, 26)
    case 219 => Code(0x3ffffe9, 26) case 220 => Code(0xffffffd, 28) case 221 => Code(0x7ffffe3, 27)
    case 222 => Code(0x7ffffe4, 27) case _ => Code(0x7ffffe5, 27)
  }

  function Codes224(c: nat): Code {
    match c
    case 224 => Code(0xfffec, 20) case 225 => Code(0xfffff3, 24) case 226 => Code(0xfffed, 20)
    case 227 => Code(0x1fffe6, 21) case 228 => Code(0x3fffe9, 22) case 229 => Code(0x1fffe7, 21)
    case 230 => Code(0x1fffe8, 21) case 231 => Code(0x7ffff3, 23) case 232 => Code(0x3fffea, 22)
    case 233 => Code(0x3fffeb, 22) case 234 => Code(0x1ffffee, 25) case 235 => Code(0x1ffffef, 25)
    case 236 => Code(0xfffff4, 24) case 237 => Code(0xfffff5, 24) case 238 => Code(0x3ffffea, 26)
    case 239 => Code(0x7ffff4, 23) case 240 => Code(0x3ffffeb, 26) case 241 => Code(0x7ffffe6, 27)
    case 242 => Code(0x3ffffec, 26) case 243 => Code(0x3ffffed, 26) case 244 => Code(0x7ffffe7, 27)
    case 245 => Code(0x7ffffe8, 27) case 246 => Code(0x7ffffe9, 27) case 247 => Code(0x7ffffea, 27)
    case 248 => Code(0x7ffffeb, 27) case 249 => Code(0xffffffe, 28) case 250 => Code(0x7ffffec, 27)
    case 251 => Code(0x7ffffed, 27) case 252 => Code(0x7ffffee, 27) case 253 => Code(0x7ffffef, 27)
    case 254 => Code(0x7fffff0, 27) case _ => Code(0x3ffffee, 26)
  }

  /** huffmanCodes and huffmanCodeLen: the codeword of each symbol. */
  function CodeAt(c: nat): Code {
    match c / 32
    case 0 => Codes0(c) case 1 => Codes32(c) case 2 => Codes64(c) case 3 => Codes96(c)
    case 4 => Codes128(c) case 5 => Codes160(c) case 6 => Codes192(c) case _ => Codes224(c)
  }

  /** The first number that could be a codeword of n bits, and the number of codewords. */
  function First(n: nat): nat {
    match n
    case 5 => 0x0 case 6 => 0x14 case 7 => 0x5c case 8 => 0xf8 case 9 => 0x1fc
    case 10 => 0x3f8 case 11 => 0x7fa case 12 => 0xffa case 13 => 0x1ff8 case 14 => 0x3ffc
    case 15 => 0x7ffc case 16 => 0xfffe case 17 => 0x1fffc case 18 => 0x3fff8 case 19 => 0x7fff0
    case 20 => 0xfffe6 case 21 => 0x1fffdc case 22 => 0x3fffd2 case 23 => 0x7fffd8 case 24 => 0xffffea
    case 25 => 0x1ffffec case 26 => 0x3ffffe0 case 27 => 0x7ffffde case 28 => 0xfffffe2 case 29 => 0x1ffffffe
    case _ => 0x3ffffffc
  }

  function Count(n: nat): nat {
    match n
    case 5 => 10 case 6 => 26 case 7 => 32 case 8 => 6 case 10 => 5 case 11 => 3 case 12 => 2
    case 13 => 6 case 14 => 2 case 15 => 3 case 19 => 3 case 20 => 8 case 21 => 13 case 22 => 26
    case 23 => 29 case 24 => 12 case 25 => 4 case 26 => 15 case 27 => 19 case 28 => 29 case 30 => 3
    case _ => 0
  }

  // The symbols of each length, in the order of their codewords.

  function Symbol5(b: nat): nat {
    match b
    case 0x0 => 48 case 0x1 => 49 case 0x2 => 50 case 0x3 => 97 case 0x4 => 99 case 0x5 => 101 case 0x6 => 105
    case 0x7 => 111 case 0x8 => 115 case _ => 116
  }

  function Symbol6(b: nat): nat {
    match b
    case 0x14 => 32 case 0x15 => 37 case 0x16 => 45 case 0x17 => 46 case 0x18 => 47 case 0x19 => 51 case 0x1a => 52
    case 0x1b => 53 case 0x1c => 54 case 0x1d => 55 case 0x1e => 56 case 0x1f => 57 case 0x20 => 61 case 0x21 => 65
    case 0x22 => 95 case 0x23 => 98 case 0x24 => 100 case 0x25 => 102 case 0x26 => 103 case 0x27 => 104 case 0x28 => 108
    case 0x29 => 109 case 0x2a => 110 case 0x2b => 112 case 0x2c => 114 case _ => 117
  }

  function Symbol7(b: nat): nat {
    match b
    case 0x5c => 58 case 0x5d => 66 case 0x5e => 67 case 0x5f => 68 case 0x60 => 69 case 0x61 => 70 case 0x62 => 71
    case 0x63 => 72 case 0x64 => 73 case 0x65 => 74 case 0x66 => 75 case 0x67 => 76 case 0x68 => 77 case 0x69 => 78
    case 0x6a => 79 case 0x6b => 80 case 0x6c => 81 case 0x6d => 82 case 0x6e => 83 case 0x6f => 84 case 0x70 => 85
    case 0x71 => 86 case 0x72 => 87 case 0x73 => 89 case 0x74 => 106 case 0x75 => 107 case 0x76 => 113 case 0x77 => 118
    case 0x78 => 119 case 0x79 => 120 case 0x7a => 121 case _ => 122
  }

  function Symbol8(b: nat): nat {
    match b
    case 0xf8 => 38 case 0xf9 => 42 case 0xfa => 44 case 0xfb => 59 case 0xfc => 88 case _ => 90
  }

  function Symbol10(b: nat): nat {
    match b
    case 0x3f8 => 33 case 0x3f9 => 34 case 0x3fa => 40 case 0x3fb => 41 case _ => 63
  }

  function Symbol11(b: nat): nat {
    match b
    case 0x7fa => 39 case 0x7fb => 43 case _ => 124
  }

  function Symbol12(b: nat): nat {
    match b
    case 0xffa => 35 case _ => 62
  }

  function Symbol13(b: nat): nat {
    match b
    case 0x1ff8 => 0 case 0x1ff9 => 36 case 0x1ffa => 64 case 0x1ffb => 91 case 0x1ffc => 93 case _ => 126
  }

  function Symbol14(b: nat): nat {
    match b
    case 0x3ffc => 94 case _ => 125
  }

  function Symbol15(b: nat): nat {
    match b
    case 0x7ffc => 60 case 0x7ffd => 96 case _ => 123
  }

  function Symbol19(b: nat): nat {
    match b
    case 0x7fff0 => 92 case 0x7fff1 => 195 case _ => 208
  }

  function Symbol20(b: nat): nat {
    match b
    case 0xfffe6 => 128 case 0xfffe7 => 130 case 0xfffe8 => 131 case 0xfffe9 => 162 case 0xfffea => 184
    case 0xfffeb => 194 case 0xfffec => 224 case _ => 226
  }

  function Symbol21(b: nat): nat {
    match b
    case 0x1fffdc => 153 case 0x1fffdd => 161 case 0x1fffde => 167 case 0x1fffdf => 172 case 0x1fffe0 => 176
    case 0x1fffe1 => 177 case 0x1fffe2 => 179 case 0x1fffe3 => 209 case 0x1fffe4 => 216 case 0x1fffe5 => 217
    case 0x1fffe6 => 227 case 0x1fffe7 => 229 case _ => 230
  }

  function Symbol22(b: nat): nat {
    match b
    case 0x3fffd2 => 129 case 0x3fffd3 => 132 case 0x3fffd4 => 133 case 0x3fffd5 => 134 case 0x3fffd6 => 136
    case 0x3fffd7 => 146 case 0x3fffd8 => 154 case 0x3fffd9 => 156 case 0x3fffda => 160 case 0x3fffdb => 163
    case 0x3fffdc => 164 case 0x3fffdd => 169 case 0x3fffde => 170 case 0x3fffdf => 173 case 0x3fffe0 => 178
    case 0x3fffe1 => 181 case 0x3fffe2 => 185 case 0x3fffe3 => 186 case 0x3fffe4 => 187 case 0x3fffe5 => 189
    case 0x3fffe6 => 190 case 0x3fffe7 => 196 case 0x3fffe8 => 198 case 0x3fffe9 => 228 case 0x3fffea => 232
    case _ => 233
  }

  function Symbol23(b: nat): nat {
    match b
    case 0x7fffd8 => 1 case 0x7fffd9 => 135 case 0x7fffda => 137 case 0x7fffdb => 138 case 0x7fffdc => 139
    case 0x7fffdd => 140 case 0x7fffde => 141 case 0x7fffdf => 143 case 0x7fffe0 => 147 case 0x7fffe1 => 149
    case 0x7fffe2 => 150 case 0x7fffe3 => 151 case 0x7fffe4 => 152 case 0x7fffe5 => 155 case 0x7fffe6 => 157
    case 0x7fffe7 => 158 case 0x7fffe8 => 165 case 0x7fffe9 => 166 case 0x7fffea => 168 case 0x7fffeb => 174
    case 0x7fffec => 175 case 0x7fffed => 180 case 0x7fffee => 182 case 0x7fffef => 183 case 0x7ffff0 => 188
    case 0x7ffff1 => 191 case 0x7ffff2 => 197 case 0x7ffff3 => 231 case _ => 239
  }

  function Symbol24(b: nat): nat {
    match b
    case 0xffffea => 9 case 0xffffeb => 142 case 0xffffec => 144 case 0xffffed => 145 case 0xffffee => 148
    case 0xffffef => 159 case 0xfffff0 => 171 case 0xfffff1 => 206 case 0xfffff2 => 215 case 0xfffff3 => 225
    case 0xfffff4 => 236 case _ => 237
  }

  function Symbol25(b: nat): nat {
    match b
    case 0x1ffffec => 199 case 0x1ffffed => 207 case 0x1ffffee => 234 case _ => 235
  }

  function Symbol26(b: nat): nat {
    match b
    case 0x3ffffe0 => 192 case 0x3ffffe1 => 193 case 0x3ffffe2 => 200 case 0x3ffffe3 => 201 case 0x3ffffe4 => 202
    case 0x3ffffe5 => 205 case 0x3ffffe6 => 210 case 0x3ffffe7 => 213 case 0x3ffffe8 => 218 case 0x3ffffe9 => 219
    case 0x3ffffea => 238 case 0x3ffffeb => 240 case 0x3ffffec => 242 case 0x3ffffed => 243 case _ => 255
  }

  function Symbol27(b: nat): nat {
    match b
    case 0x7ffffde => 203 case 0x7ffffdf => 204 case 0x7ffffe0 => 211 case 0x7ffffe1 => 212 case 0x7ffffe2 => 214
    case 0x7ffffe3 => 221 case 0x7ffffe4 => 222 case 0x7ffffe5 => 223 case 0x7ffffe6 => 241 case 0x7ffffe7 => 244
    case 0x7ffffe8 => 245 case 0x7ffffe9 => 246 case 0x7ffffea => 247 case 0x7ffffeb => 248 case 0x7ffffec => 250
    case 0x7ffffed => 251 case 0x7ffffee => 252 case 0x7ffffef => 253 case _ => 254
  }

  function Symbol28(b: nat): nat {
    match b
    case 0xfffffe2 => 2 case 0xfffffe3 => 3 case 0xfffffe4 => 4 case 0xfffffe5 => 5 case 0xfffffe6 => 6
    case 0xfffffe7 => 7 case 0xfffffe8 => 8 case 0xfffffe9 => 11 case 0xfffffea => 12 case 0xfffffeb => 14
    case 0xfffffec => 15 case 0xfffffed => 16 case 0xfffffee => 17 case 0xfffffef => 18 case 0xffffff0 => 19
    case 0xffffff1 => 20 case 0xffffff2 => 21 case 0xffffff3 => 23 case 0xffffff4 => 24 case 0xffffff5 => 25
    case 0xffffff6 => 26 case 0xffffff7 => 27 case 0xffffff8 => 28 case 0xffffff9 => 29 case 0xffffffa => 30
    case 0xffffffb => 31 case 0xffffffc => 127 case 0xffffffd => 220 case _ => 249
  }

  function Symbol30(b: nat): nat {
    match b
    case 0x3ffffffc => 10 case 0x3ffffffd => 13 case _ => 22
  }

  /** The symbol of a codeword. */
  function SymbolOf(x: Code): nat {
    match x.len
    case 5 => Symbol5(x.bits) case 6 => Symbol6(x.bits) case 7 => Symbol7(x.bits) case 8 => Symbol8(x.bits)
    case 10 => Symbol10(x.bits) case 11 => Symbol11(x.bits) case 12 => Symbol12(x.bits) case 13 => Symbol13(x.bits)
    case 14 => Symbol14(x.bits) case 15 => Symbol15(x.bits) case 19 => Symbol19(x.bits) case 20 => Symbol20(x.bits)
    case 21 => Symbol21(x.bits) case 22 => Symbol22(x.bits) case 23 => Symbol23(x.bits) case 24 => Symbol24(x.bits)
    case 25 => Symbol25(x.bits) case 26 => Symbol26(x.bits) case 27 => Symbol27(x.bits) case 28 => Symbol28(x.bits)
    case _ => Symbol30(x.bits)
  }

  /** A codeword is one of those of its length, and its symbol's only one. */
  predicate FineAt(c: nat) {
    var x := CodeAt(c);
    5 <= x.len <= 30 && First(x.len) <= x.bits < First(x.len) + Count(x.len) && SymbolOf(x) == c
  }

  lemma Fine0(c: nat)
    requires 0 <= c < 16
    ensures FineAt(c)
  {
  }

  lemma Fine16(c: nat)
    requires 16 <= c < 32
    ensures FineAt(c)
  {
  }

  lemma Fine32(c: nat)
    requires 32 <= c < 48
    ensures FineAt(c)
  {
  }

  lemma Fine48(c: nat)
    requires 48 <= c < 64
    ensures FineAt(c)
  {
  }

  lemma Fine64(c: nat)
    requires 64 <= c < 80
    ensures FineAt(c)
  {
  }

  lemma Fine80(c: nat)
    requires 80 <= c < 96
    ensures FineAt(c)
  {
  }

  lemma Fine96(c: nat)
    requires 96 <= c < 112
    ensures FineAt(c)
  {
  }

  lemma Fine112(c: nat)
    requires 112 <= c < 128
    ensures FineAt(c)
  {
  }

  lemma Fine128(c: nat)
    requires 128 <= c < 144
    ensures FineAt(c)
  {
  }

  lemma Fine144(c: nat)
    requires 144 <= c < 160
    ensures FineAt(c)
  {
  }

  lemma Fine160(c: nat)
    requires 160 <= c < 176
    ensures FineAt(c)
  {
  }

  lemma Fine176(c: nat)
    requires 176 <= c < 192
    ensures FineAt(c)
  {
  }

  lemma Fine192(c: nat)
    requires 192 <= c < 208
    ensures FineAt(c)
  {
  }

  lemma Fine208(c: nat)
    requires 208 <= c < 224
    ensures FineAt(c)
  {
  }

  lemma Fine224(c: nat)
    requires 224 <= c < 232
    ensures FineAt(c)
  {
  }

  lemma Fine232(c: nat)
    requires 232 <= c < 240
    ensures FineAt(c)
  {
  }

  lemma Fine240(c: nat)
    requires 240 <= c < 256
    ensures FineAt(c)
  {
  }

  lemma Fine(c: byte)
    ensures FineAt(c)
  {
    hide FineAt;
    match c / 16
    case 0 => Fine0(c);
    case 1 => Fine16(c);
    case 2 => Fine32(c);
    case 3 => Fine48(c);
    case 4 => Fine64(c);
    case 5 => Fine80(c);
    case 6 => Fine96(c);
    case 7 => Fine112(c);
    case 8 => Fine128(c);
    case 9 => Fine144(c);
    case 10 => Fine160(c);
    case 11 => Fine176(c);
    case 12 => Fine192(c);
    case 13 => Fine208(c);
    case 14 => if c < 232 { Fine224(c); } else { Fine232(c); }
    case _ => Fine240(c);
  }

  // ----- canonical codes -----

  lemma Canonical(n: nat)
    requires 5 <= n < 30
    ensures First(n + 1) == 2 * (First(n) + Count(n))
  {
  }

  /** What starts with a codeword comes before every codeword of more bits. */
  lemma {:induction false} Before(m: nat, n: nat)
    requires 5 <= m < n <= 30
    ensures (First(m) + Count(m)) * Pow2(n - m) <= First(n)
    decreases n
  {
    hide First, Count;
    Canonical(n - 1);
    if m < n - 1 {
      Before(m, n - 1);
      Doubled(First(m) + Count(m), Pow2(n - 1 - m), First(n - 1));
    } else {
      assert Pow2(1) == 2;
    }
  }

  lemma Doubled(a: nat, p: nat, b: nat)
    requires a * p <= b
    ensures a * (2 * p) <= 2 * b
  {
    assert a * (2 * p) == 2 * (a * p);
  }

  /** The number that is all ones is no codeword of any length. */
  lemma BelowOnes(n: nat)
    requires 5 <= n <= 30
    ensures First(n) + Count(n) < Pow2(n)
  {
    HuffmanRoutines.EosSize();
    assert First(30) == 0x3fff_fffc && Count(30) == 3;
    hide Pow2, First, Count;
    if n < 30 {
      Before(n, 30);
      Pow2Adds(n, 30 - n);
      Cancelled(First(n) + Count(n), Pow2(n), Pow2(30 - n));
    }
  }

  lemma Grown(a: nat, b: nat, p: nat)
    requires a >= b
    ensures a * p >= b * p
  {
  }

  lemma Cancelled(a: nat, b: nat, p: nat)
    requires a * p < b * p
    ensures a < b
  {
    if a >= b { Grown(a, b, p); }
  }

  function Table(): (t: Codes)
    ensures |t| == 256 && forall c :: 0 <= c < 256 ==> t[c] == CodeAt(c)
  {
    seq(256, c requires 0 <= c < 256 => CodeAt(c))
  }

  /** What is known of the codeword of a symbol. */
  lemma Codeword(c: byte)
    ensures var x := CodeAt(c);
            && 5 <= x.len <= 30 && First(x.len) <= x.bits < First(x.len) + Count(x.len)
            && x.bits + 1 < Pow2(x.len) && SymbolOf(x) == c
  {
    Fine(c);
    hide CodeAt, First, Count, SymbolOf, Pow2;
    BelowOnes(CodeAt(c).len);
  }

  /** A codeword that another starts with is that one. */
  lemma NoPrefix(c: byte, d: byte)
    requires CodeBits(Table(), c) <= CodeBits(Table(), d)
    ensures c == d
  {
    Codeword(c);
    Codeword(d);
    hide CodeAt, First, Count, SymbolOf, Pow2, ToBits, Shr;
    var x, y := CodeAt(c), CodeAt(d);
    var n := y.len - x.len;
    BitsSplit(y.bits, x.len, n);
    HuffmanRoutines.ShrBound(y.bits, x.len, n);
    SameBits(Shr(y.bits, n), x.bits, x.len);
    if n == 0 {
      HuffmanRoutines.ShrNone(y.bits);
      assert x == y;
    } else {
      HuffmanRoutines.ShrFloor(y.bits, n);
      Before(x.len, y.len);
      NextUp(x.bits, First(x.len) + Count(x.len), Pow2(n));
      assert false;
    }
  }

  lemma NextUp(a: nat, b: nat, p: nat)
    requires a < b
    ensures a * p + p <= b * p
  {
    assert (a + 1) * p == a * p + p;
  }

  lemma NotOnes(c: byte)
    ensures CodeBits(Table(), c) != Ones(CodeAt(c).len)
  {
    Codeword(c);
    hide CodeAt, First, Count, SymbolOf, Pow2, ToBits, Ones;
    var x := CodeAt(c);
    BitsOfOnes(x.len);
    if ToBits(x.bits, x.len) == Ones(x.len) { SameBits(x.bits, Pow2(x.len) - 1, x.len); }
  }

  /** A codeword of k ones and j zeros. */
  lemma OnesCode(c: byte, v: nat, k: nat, j: nat)
    requires v == Pow2(k) - 1 && CodeAt(c) == Code(v * Pow2(j), k + j)
    ensures CodeBits(Table(), c) == Ones(k) + Zeros(j)
  {
    hide CodeAt, Pow2, ToBits, Ones, Zeros;
    ShlBits(v, k, j);
    BitsOfOnes(k);
  }

  lemma OnesCodeLeads(c: byte, v: nat, k: nat, j: nat)
    requires k <= 8 && v == Pow2(k) - 1 && CodeAt(c) == Code(v * Pow2(j), k + j)
    ensures OnTheWay(Table(), Ones(k) + Zeros(8 - k))
  {
    OnesCode(c, v, k, j);
    hide CodeAt, CodeBits, Pow2, Ones, Zeros, Compatible;
    OnesThenZeros(k, j, 8 - k);
  }

  lemma OnesThenZeros(k: nat, i: nat, j: nat)
    ensures Compatible(Ones(k) + Zeros(i), Ones(k) + Zeros(j))
  {
    var a, b := Ones(k) + Zeros(i), Ones(k) + Zeros(j);
    if i <= j {
      assert a == b[..|a|];
    } else {
      assert b == a[..|b|];
    }
  }

  /** What k ones and then zeros lead to. */
  lemma Leads(k: nat)
    requires 1 <= k <= 7
    ensures OnTheWay(Table(), Ones(k) + Zeros(8 - k))
  {
    hide OnTheWay, Ones, Zeros;
    match k
    case 1 => OnesCodeLeads(61, 1, 1, 5);
    case 2 => OnesCodeLeads(69, 3, 2, 5);
    case 3 => OnesCodeLeads(85, 7, 3, 4);
    case 4 => OnesCodeLeads(119, 15, 4, 3);
    case 5 => OnesCodeLeads(38, 31, 5, 3);
    case 6 => OnesCodeLeads(88, 63, 6, 2);
    case _ => OnesCodeLeads(33, 127, 7, 3);
  }

  /** The program's Huffman code is prefix-free, its padding completes no codeword, and the
      decoder always finds a node for padding. */
  lemma TableIsGood()
    ensures GoodCodes(Table())
  {
    hide CodeAt, CodeBits, First, Count, SymbolOf, Pow2, OnTheWay, Ones, Zeros;
    forall c: byte
      ensures 1 <= Table()[c].len <= 32 && Table()[c].bits < Pow2(Table()[c].len)
      ensures CodeBits(Table(), c) != Ones(Table()[c].len)
    {
      Codeword(c);
      NotOnes(c);
    }
    forall c: byte, d: byte | c != d
      ensures !(CodeBits(Table(), c) <= CodeBits(Table(), d))
    {
      if CodeBits(Table(), c) <= CodeBits(Table(), d) { NoPrefix(c, d); }
    }
    forall k: nat | 1 <= k <= 7 ensures OnTheWay(Table(), Ones(k) + Zeros(8 - k)) { Leads(k); }
  }

  // ----- the end-of-string code -----

  /** Thirty ones, the codeword of the end of a string, which is no symbol's. */
  lemma EosIsNone(r: Bits)
    requires Ones(30) <= r
    ensures Stuck(Table(), r) && !Settles(Table(), r)
  {
    hide CodeAt, First, Count, SymbolOf, Pow2, CodeBits, Ones, Zeros, ToBits;
    forall c: byte
      ensures !(CodeBits(Table(), c) <= r) && !Compatible(CodeBits(Table(), c), Filled(r))
    {
      Codeword(c);
      NotOnes(c);
      var x := CodeBits(Table(), c);
      assert |x| == CodeAt(c).len <= 30 <= |r|;
      if x <= r || Compatible(x, Filled(r)) {
        assert x <= Ones(30) by { assert r[..|x|] == Filled(r)[..|x|] == Ones(30)[..|x|]; }
        OnesPrefix(x, 30);
      }
    }
  }

  /** With the program's table: where the end-of-string code follows the last symbol, decoding
      runs into a nil node. */
  lemma EosFails(trie: Trie, v: seq<byte>, s: seq<byte>, r: Bits)
    requires TrieFor(Table(), trie) && BytesBits(v) == StringBits(Table(), s) + r && Ones(30) <= r
    ensures Decode(trie, v) == None
  {
    TableIsGood();
    EosIsNone(r);
    hide PrefixFree, PaddingIncomplete, PaddingCovered, TrieFor, Decode, Stuck, Settles;
    DecodesAny(Table(), trie, v, s, r);
  }

  /** Four bytes of ones, for example. */
  lemma EosExample(trie: Trie)
    requires TrieFor(Table(), trie)
    ensures Decode(trie, [0xff, 0xff, 0xff, 0xff]) == None
  {
    var v: seq<byte> := [0xff, 0xff, 0xff, 0xff];
    assert ToBits(0xff, 8) == Ones(8);
    assert BytesBits(v) == Ones(32) by {
      assert v[1..] == [0xff, 0xff, 0xff] && v[1..][1..] == [0xff, 0xff] && v[1..][1..][1..] == [0xff];
      hide ToBits;
      BytesBitsOne(0xff);
      BytesBitsJoin([0xff], [0xff]);
      assert [0xff] + [0xff] == [0xff, 0xff] && BytesBits([0xff, 0xff]) == Ones(16);
      BytesBitsJoin([0xff, 0xff], [0xff, 0xff]);
      assert [0xff, 0xff] + [0xff, 0xff] == v;
    }
    assert StringBits(Table(), []) == [] && [] + Ones(32) == Ones(32) && Ones(30) <= Ones(32);
    hide TrieFor, Decode, BytesBits, Ones;
    EosFails(trie, v, [], Ones(32));
  }
}
