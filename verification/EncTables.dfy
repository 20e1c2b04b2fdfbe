// The three single-byte Cyrillic tables.

module EncTables {

  // Code points for the bytes 0x80 to 0xFF, sixteen to a row; zero where the byte is undefined.
  type Table = seq<seq<int>>

  ghost predicate GoodRow(r: seq<int>) {
    |r| == 16 && forall j {:trigger r[j]} :: 0 <= j < 16 ==>
        r[j] == 0 || (0x80 <= r[j] <= 0xFFFF && !(0xD800 <= r[j] <= 0xDFFF))
  }

  ghost predicate IsTable(t: Table) {
    |t| == 8 && forall i {:trigger t[i]} :: 0 <= i < 8 ==> GoodRow(t[i])
  }

  const CP1251: Table := [
    [0x0402, 0x0403, 0x201A, 0x0453, 0x201E, 0x2026, 0x2020, 0x2021,
     0x20AC, 0x2030, 0x0409, 0x2039, 0x040A, 0x040C, 0x040B, 0x040F],
    [0x0452, 0x2018, 0x2019, 0x201C, 0x201D, 0x2022, 0x2013, 0x2014,
     0x0000, 0x2122, 0x0459, 0x203A, 0x045A, 0x045C, 0x045B, 0x045F],
    [0x00A0, 0x040E, 0x045E, 0x0408, 0x00A4, 0x0490, 0x00A6, 0x00A7,
     0x0401, 0x00A9, 0x0404, 0x00AB, 0x00AC, 0x00AD, 0x00AE, 0x0407],
    [0x00B0, 0x00B1, 0x0406, 0x0456, 0x0491, 0x00B5, 0x00B6, 0x00B7,
     0x0451, 0x2116, 0x0454, 0x00BB, 0x0458, 0x0405, 0x0455, 0x0457],
    [0x0410, 0x0411, 0x0412, 0x0413, 0x0414, 0x0415, 0x0416, 0x0417,
     0x0418, 0x0419, 0x041A, 0x041B, 0x041C, 0x041D, 0x041E, 0x041F],
    [0x0420, 0x0421, 0x0422, 0x0423, 0x0424, 0x0425, 0x0426, 0x0427,
     0x0428, 0x0429, 0x042A, 0x042B, 0x042C, 0x042D, 0x042E, 0x042F],
    [0x0430, 0x0431, 0x0432, 0x0433, 0x0434, 0x0435, 0x0436, 0x0437,
     0x0438, 0x0439, 0x043A, 0x043B, 0x043C, 0x043D, 0x043E, 0x043F],
    [0x0440, 0x0441, 0x0442, 0x0443, 0x0444, 0x0445, 0x0446, 0x0447,
     0x0448, 0x0449, 0x044A, 0x044B, 0x044C, 0x044D, 0x044E, 0x044F]]

  const CP866: Table := [
    [0x0410, 0x0411, 0x0412, 0x0413, 0x0414, 0x0415, 0x0416, 0x0417,
     0x0418, 0x0419, 0x041A, 0x041B, 0x041C, 0x041D, 0x041E, 0x041F],
    [0x0420, 0x0421, 0x0422, 0x0423, 0x0424, 0x0425, 0x0426, 0x0427,
     0x0428, 0x0429, 0x042A, 0x042B, 0x042C, 0x042D, 0x042E, 0x042F],
    [0x0430, 0x0431, 0x0432, 0x0433, 0x0434, 0x0435, 0x0436, 0x0437,
     0x0438, 0x0439, 0x043A, 0x043B, 0x043C, 0x043D, 0x043E, 0x043F],
    [0x2591, 0x2592, 0x2593, 0x2502, 0x2524, 0x2561, 0x2562, 0x2556,
     0x2555, 0x2563, 0x2551, 0x2557, 0x255D, 0x255C, 0x255B, 0x2510],
    [0x2514, 0x2534, 0x252C, 0x251C, 0x2500, 0x253C, 0x255E, 0x255F,
     0x255A, 0x2554, 0x2569, 0x2566, 0x2560, 0x2550, 0x256C, 0x2567],
    [0x2568, 0x2564, 0x2565, 0x2559, 0x2558, 0x2552, 0x2553, 0x256B,
     0x256A, 0x2518, 0x250C, 0x2588, 0x2584, 0x258C, 0x2590, 0x2580],
    [0x0440, 0x0441, 0x0442, 0x0443, 0x0444, 0x0445, 0x0446, 0x0447,
     0x0448, 0x0449, 0x044A, 0x044B, 0x044C, 0x044D, 0x044E, 0x044F],
    [0x0401, 0x0451, 0x0404, 0x0454, 0x0407, 0x0457, 0x040E, 0x045E,
     0x00B0, 0x2219, 0x00B7, 0x221A, 0x2116, 0x00A4, 0x25A0, 0x00A0]]

  const KOI8R: Table := [
    [0x2500, 0x2502, 0x250C, 0x2510, 0x2514, 0x2518, 0x251C, 0x2524,
     0x252C, 0x2534, 0x253C, 0x2580, 0x2584, 0x2588, 0x258C, 0x2590],
    [0x2591, 0x2592, 0x2593, 0x2320, 0x25A0, 0x2219, 0x221A, 0x2248,
     0x2264, 0x2265, 0x00A0, 0x2321, 0x00B0, 0x00B2, 0x00B7, 0x00F7],
    [0x2550, 0x2551, 0x2552, 0x0451, 0x2553, 0x2554, 0x2555, 0x2556,
     0x2557, 0x2558, 0x2559, 0x255A, 0x255B, 0x255C, 0x255D, 0x255E],
    [0x255F, 0x2560, 0x2561, 0x0401, 0x2562, 0x2563, 0x2564, 0x2565,
     0x2566, 0x2567, 0x2568, 0x2569, 0x256A, 0x256B, 0x256C, 0x00A9],
    [0x044E, 0x0430, 0x0431, 0x0446, 0x0434, 0x0435, 0x0444, 0x0433,
     0x0445, 0x0438, 0x0439, 0x043A, 0x043B, 0x043C, 0x043D, 0x043E],
    [0x043F, 0x044F, 0x0440, 0x0441, 0x0442, 0x0443, 0x0436, 0x0432,
     0x044C, 0x044B, 0x0437, 0x0448, 0x044D, 0x0449, 0x0447, 0x044A],
    [0x042E, 0x0410, 0x0411, 0x0426, 0x0414, 0x0415, 0x0424, 0x0413,
     0x0425, 0x0418, 0x0419, 0x041A, 0x041B, 0x041C, 0x041D, 0x041E],
    [0x041F, 0x042F, 0x0420, 0x0421, 0x0422, 0x0423, 0x0416, 0x0412,
     0x042C, 0x042B, 0x0417, 0x0428, 0x042D, 0x0429, 0x0427, 0x042A]]

  lemma Cp1251Rows0()
    ensures GoodRow(CP1251[0]) && GoodRow(CP1251[1])
  {
  }

  lemma Cp1251Rows2()
    ensures GoodRow(CP1251[2]) && GoodRow(CP1251[3])
  {
  }

  lemma Cp1251Rows4()
    ensures GoodRow(CP1251[4]) && GoodRow(CP1251[5])
  {
  }

  lemma Cp1251Rows6()
    ensures GoodRow(CP1251[6]) && GoodRow(CP1251[7])
  {
  }

  lemma IsCp1251()
    ensures IsTable(CP1251)
  {
    Cp1251Rows0();
    Cp1251Rows2();
    Cp1251Rows4();
    Cp1251Rows6();
  }

  lemma Cp866Rows0()
    ensures GoodRow(CP866[0]) && GoodRow(CP866[1])
  {
  }

  lemma Cp866Rows2()
    ensures GoodRow(CP866[2]) && GoodRow(CP866[3])
  {
  }

  lemma Cp866Rows4()
    ensures GoodRow(CP866[4]) && GoodRow(CP866[5])
  {
  }

  lemma Cp866Rows6()
    ensures GoodRow(CP866[6]) && GoodRow(CP866[7])
  {
  }

  lemma IsCp866()
    ensures IsTable(CP866)
  {
    Cp866Rows0();
    Cp866Rows2();
    Cp866Rows4();
    Cp866Rows6();
  }

  lemma Koi8rRows0()
    ensures GoodRow(KOI8R[0]) && GoodRow(KOI8R[1])
  {
  }

  lemma Koi8rRows2()
    ensures GoodRow(KOI8R[2]) && GoodRow(KOI8R[3])
  {
  }

  lemma Koi8rRows4()
    ensures GoodRow(KOI8R[4]) && GoodRow(KOI8R[5])
  {
  }

  lemma Koi8rRows6()
    ensures GoodRow(KOI8R[6]) && GoodRow(KOI8R[7])
  {
  }

  lemma IsKoi8r()
    ensures IsTable(KOI8R)
  {
    Koi8rRows0();
    Koi8rRows2();
    Koi8rRows4();
    Koi8rRows6();
  }
}
