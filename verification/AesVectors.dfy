// The two key expansions that appendix A of FIPS 197 prints, round key by round key: the program's
// expansion arrives at each. A quad is one round key; the first byte of a word is its lowest.
module AesVectors {
  import opened KeySchedule
  import opened Rows
  import opened KeyFinder
  import opened AesTables
  import opened AesStandard

  // Appendix A.1: the key 2b7e151628aed2a6abf7158809cf4f3c.
  const KEY128: seq<Word> := [0x16157e2b, 0xa6d2ae28, 0x8815f7ab, 0x3c4fcf09]

  lemma Core128At1()
    ensures Mixed(AES, 4, 1, 0, 0x3c4fcf09) == 0x01eb848b
  {
  }

  lemma RoundKey128At1()
    ensures Ends128(AES, KEY128, 8, Quad(0x17fefaa0, 0xb12c5488, 0x3939a323, 0x05766c2a))
  {
    Core128At1();
    GoesOn128(AES, KEY128, 1, Quad(0x16157e2b, 0xa6d2ae28, 0x8815f7ab, 0x3c4fcf09), 0x01eb848b,
              Quad(0x17fefaa0, 0xb12c5488, 0x3939a323, 0x05766c2a));
  }

  lemma Core128At2()
    ensures Mixed(AES, 4, 2, 0, 0x05766c2a) == 0xe56b3852
  {
  }

  lemma RoundKey128At2()
    ensures Ends128(AES, KEY128, 12, Quad(0xf295c2f2, 0x43b9967a, 0x7a803559, 0x7ff65973))
  {
    RoundKey128At1();
    Core128At2();
    GoesOn128(AES, KEY128, 2, Quad(0x17fefaa0, 0xb12c5488, 0x3939a323, 0x05766c2a), 0xe56b3852,
              Quad(0xf295c2f2, 0x43b9967a, 0x7a803559, 0x7ff65973));
  }

  lemma Core128At3()
    ensures Mixed(AES, 4, 3, 0, 0x7ff65973) == 0x8fd242cf
  {
  }

  lemma RoundKey128At3()
    ensures Ends128(AES, KEY128, 16, Quad(0x7d47803d, 0x3efe1647, 0x447e231e, 0x3b887a6d))
  {
    RoundKey128At2();
    Core128At3();
    GoesOn128(AES, KEY128, 3, Quad(0xf295c2f2, 0x43b9967a, 0x7a803559, 0x7ff65973), 0x8fd242cf,
              Quad(0x7d47803d, 0x3efe1647, 0x447e231e, 0x3b887a6d));
  }

  lemma Core128At4()
    ensures Mixed(AES, 4, 4, 0, 0x3b887a6d) == 0x3ce2c4d2
  {
  }

  lemma RoundKey128At4()
    ensures Ends128(AES, KEY128, 20, Quad(0x41a544ef, 0x7f5b52a8, 0x3b2571b6, 0x00ad0bdb))
  {
    RoundKey128At3();
    Core128At4();
    GoesOn128(AES, KEY128, 4, Quad(0x7d47803d, 0x3efe1647, 0x447e231e, 0x3b887a6d), 0x3ce2c4d2,
              Quad(0x41a544ef, 0x7f5b52a8, 0x3b2571b6, 0x00ad0bdb));
  }

  lemma Core128At5()
    ensures Mixed(AES, 4, 5, 0, 0x00ad0bdb) == 0xb963953b
  {
  }

  lemma RoundKey128At5()
    ensures Ends128(AES, KEY128, 24, Quad(0xf8c6d1d4, 0x879d837c, 0xbcb8f2ca, 0xbc15f911))
  {
    RoundKey128At4();
    Core128At5();
    GoesOn128(AES, KEY128, 5, Quad(0x41a544ef, 0x7f5b52a8, 0x3b2571b6, 0x00ad0bdb), 0xb963953b,
              Quad(0xf8c6d1d4, 0x879d837c, 0xbcb8f2ca, 0xbc15f911));
  }

  lemma Core128At6()
    ensures Mixed(AES, 4, 6, 0, 0xbc15f911) == 0x826559b9
  {
  }

  lemma RoundKey128At6()
    ensures Ends128(AES, KEY128, 28, Quad(0x7aa3886d, 0xfd3e0b11, 0x4186f9db, 0xfd9300ca))
  {
    RoundKey128At5();
    Core128At6();
    GoesOn128(AES, KEY128, 6, Quad(0xf8c6d1d4, 0x879d837c, 0xbcb8f2ca, 0xbc15f911), 0x826559b9,
              Quad(0x7aa3886d, 0xfd3e0b11, 0x4186f9db, 0xfd9300ca));
  }

  lemma Core128At7()
    ensures Mixed(AES, 4, 7, 0, 0xfd9300ca) == 0x7454dc23
  {
  }

  lemma RoundKey128At7()
    ensures Ends128(AES, KEY128, 32, Quad(0x0ef7544e, 0xf3c95f5f, 0xb24fa684, 0x4fdca64e))
  {
    RoundKey128At6();
    Core128At7();
    GoesOn128(AES, KEY128, 7, Quad(0x7aa3886d, 0xfd3e0b11, 0x4186f9db, 0xfd9300ca), 0x7454dc23,
              Quad(0x0ef7544e, 0xf3c95f5f, 0xb24fa684, 0x4fdca64e));
  }

  lemma Core128At8()
    ensures Mixed(AES, 4, 8, 0, 0x4fdca64e) == 0x2f8486a4
  {
  }

  lemma RoundKey128At8()
    ensures Ends128(AES, KEY128, 36, Quad(0x2173d2ea, 0xd2ba8db5, 0x60f52b31, 0x2f298d7f))
  {
    RoundKey128At7();
    Core128At8();
    GoesOn128(AES, KEY128, 8, Quad(0x0ef7544e, 0xf3c95f5f, 0xb24fa684, 0x4fdca64e), 0x2f8486a4,
              Quad(0x2173d2ea, 0xd2ba8db5, 0x60f52b31, 0x2f298d7f));
  }

  lemma Core128At9()
    ensures Mixed(AES, 4, 9, 0, 0x2f298d7f) == 0xd215a546
  {
  }

  lemma RoundKey128At9()
    ensures Ends128(AES, KEY128, 40, Quad(0xf36677ac, 0x21dcfa19, 0x4129d128, 0x6e005c57))
  {
    RoundKey128At8();
    Core128At9();
    GoesOn128(AES, KEY128, 9, Quad(0x2173d2ea, 0xd2ba8db5, 0x60f52b31, 0x2f298d7f), 0xd215a546,
              Quad(0xf36677ac, 0x21dcfa19, 0x4129d128, 0x6e005c57));
  }

  lemma Core128At10()
    ensures Mixed(AES, 4, 10, 0, 0x6e005c57) == 0x5b9f637c
  {
  }

  lemma RoundKey128At10()
    ensures Ends128(AES, KEY128, 44, Quad(0xa8f914d0, 0x8925eec9, 0xc80c3fe1, 0xa60c63b6))
  {
    RoundKey128At9();
    Core128At10();
    GoesOn128(AES, KEY128, 10, Quad(0xf36677ac, 0x21dcfa19, 0x4129d128, 0x6e005c57), 0x5b9f637c,
              Quad(0xa8f914d0, 0x8925eec9, 0xc80c3fe1, 0xa60c63b6));
  }

  // Appendix A.3: the key 603deb1015ca71be2b73aef0857d77811f352c073b6108d72d9810a30914dff4.
  const KEY256: seq<Word> := [
    0x10eb3d60, 0xbe71ca15, 0xf0ae732b, 0x81777d85,
    0x072c351f, 0xd708613b, 0xa310982d, 0xf4df1409
  ]

  lemma Core256At2()
    ensures Mixed(AES, 8, 1, 0, 0xf4df1409) == 0x01bf9efb
  {
  }

  lemma RoundKey256At2()
    ensures Ends256(AES, KEY256, 12, Quad(0x072c351f, 0xd708613b, 0xa310982d, 0xf4df1409),
                    Quad(0x1154a39b, 0xaf25698e, 0x5f8b1aa5, 0xdefc6720))
  {
    Core256At2();
    GoesOn256(AES, KEY256, 2, Quad(0x10eb3d60, 0xbe71ca15, 0xf0ae732b, 0x81777d85),
              Quad(0x072c351f, 0xd708613b, 0xa310982d, 0xf4df1409), 0x01bf9efb,
              Quad(0x1154a39b, 0xaf25698e, 0x5f8b1aa5, 0xdefc6720));
  }

  lemma Core256At3()
    ensures Mixed(AES, 8, 1, 4, 0xdefc6720) == 0x1db085b7
  {
  }

  lemma RoundKey256At3()
    ensures Ends256(AES, KEY256, 16, Quad(0x1154a39b, 0xaf25698e, 0x5f8b1aa5, 0xdefc6720),
                    Quad(0x1a9cb0a8, 0xcd94d193, 0x6e8449be, 0x9a5b5db7))
  {
    RoundKey256At2();
    Core256At3();
    GoesOn256(AES, KEY256, 3, Quad(0x072c351f, 0xd708613b, 0xa310982d, 0xf4df1409),
              Quad(0x1154a39b, 0xaf25698e, 0x5f8b1aa5, 0xdefc6720), 0x1db085b7,
              Quad(0x1a9cb0a8, 0xcd94d193, 0x6e8449be, 0x9a5b5db7));
  }

  lemma Core256At4()
    ensures Mixed(AES, 8, 2, 0, 0x9a5b5db7) == 0xa9b8394e
  {
  }

  lemma RoundKey256At4()
    ensures Ends256(AES, KEY256, 20, Quad(0x1a9cb0a8, 0xcd94d193, 0x6e8449be, 0x9a5b5db7),
                    Quad(0xb8ec9ad5, 0x17c9f35b, 0x4842e9fe, 0x96be8ede))
  {
    RoundKey256At3();
    Core256At4();
    GoesOn256(AES, KEY256, 4, Quad(0x1154a39b, 0xaf25698e, 0x5f8b1aa5, 0xdefc6720),
              Quad(0x1a9cb0a8, 0xcd94d193, 0x6e8449be, 0x9a5b5db7), 0xa9b8394e,
              Quad(0xb8ec9ad5, 0x17c9f35b, 0x4842e9fe, 0x96be8ede));
  }

  lemma Core256At5()
    ensures Mixed(AES, 8, 2, 4, 0x96be8ede) == 0x90ae191d
  {
  }

  lemma RoundKey256At5()
    ensures Ends256(AES, KEY256, 24, Quad(0xb8ec9ad5, 0x17c9f35b, 0x4842e9fe, 0x96be8ede),
                    Quad(0x8a32a9b5, 0x47a67826, 0x29223198, 0xb3796c2f))
  {
    RoundKey256At4();
    Core256At5();
    GoesOn256(AES, KEY256, 5, Quad(0x1a9cb0a8, 0xcd94d193, 0x6e8449be, 0x9a5b5db7),
              Quad(0xb8ec9ad5, 0x17c9f35b, 0x4842e9fe, 0x96be8ede), 0x90ae191d,
              Quad(0x8a32a9b5, 0x47a67826, 0x29223198, 0xb3796c2f));
  }

  lemma Core256At6()
    ensures Mixed(AES, 8, 3, 0, 0xb3796c2f) == 0x156db654
  {
  }

  lemma RoundKey256At6()
    ensures Ends256(AES, KEY256, 28, Quad(0x8a32a9b5, 0x47a67826, 0x29223198, 0xb3796c2f),
                    Quad(0xad812c81, 0xba48dfda, 0xf20a3624, 0x64b4b8fa))
  {
    RoundKey256At5();
    Core256At6();
    GoesOn256(AES, KEY256, 6, Quad(0xb8ec9ad5, 0x17c9f35b, 0x4842e9fe, 0x96be8ede),
              Quad(0x8a32a9b5, 0x47a67826, 0x29223198, 0xb3796c2f), 0x156db654,
              Quad(0xad812c81, 0xba48dfda, 0xf20a3624, 0x64b4b8fa));
  }

  lemma Core256At7()
    ensures Mixed(AES, 8, 3, 4, 0x64b4b8fa) == 0x438d6c2d
  {
  }

  lemma RoundKey256At7()
    ensures Ends256(AES, KEY256, 32, Quad(0xad812c81, 0xba48dfda, 0xf20a3624, 0x64b4b8fa),
                    Quad(0xc9bfc598, 0x8e19bdbe, 0xa73b8c26, 0x1442e009))
  {
    RoundKey256At6();
    Core256At7();
    GoesOn256(AES, KEY256, 7, Quad(0x8a32a9b5, 0x47a67826, 0x29223198, 0xb3796c2f),
              Quad(0xad812c81, 0xba48dfda, 0xf20a3624, 0x64b4b8fa), 0x438d6c2d,
              Quad(0xc9bfc598, 0x8e19bdbe, 0xa73b8c26, 0x1442e009));
  }

  lemma Core256At8()
    ensures Mixed(AES, 8, 4, 0, 0x1442e009) == 0x01fa2ce9
  {
  }

  lemma RoundKey256At8()
    ensures Ends256(AES, KEY256, 36, Quad(0xc9bfc598, 0x8e19bdbe, 0xa73b8c26, 0x1442e009),
                    Quad(0xac7b0068, 0x1633dfb2, 0xe439e996, 0x808d516c))
  {
    RoundKey256At7();
    Core256At8();
    GoesOn256(AES, KEY256, 8, Quad(0xad812c81, 0xba48dfda, 0xf20a3624, 0x64b4b8fa),
              Quad(0xc9bfc598, 0x8e19bdbe, 0xa73b8c26, 0x1442e009), 0x01fa2ce9,
              Quad(0xac7b0068, 0x1633dfb2, 0xe439e996, 0x808d516c));
  }

  lemma Core256At9()
    ensures Mixed(AES, 8, 4, 4, 0x808d516c) == 0xcd5dd150
  {
  }

  lemma RoundKey256At9()
    ensures Ends256(AES, KEY256, 40, Quad(0xac7b0068, 0x1633dfb2, 0xe439e996, 0x808d516c),
                    Quad(0x04e214c8, 0x8afba976, 0x2dc02550, 0x3982c559))
  {
    RoundKey256At8();
    Core256At9();
    GoesOn256(AES, KEY256, 9, Quad(0xc9bfc598, 0x8e19bdbe, 0xa73b8c26, 0x1442e009),
              Quad(0xac7b0068, 0x1633dfb2, 0xe439e996, 0x808d516c), 0xcd5dd150,
              Quad(0x04e214c8, 0x8afba976, 0x2dc02550, 0x3982c559));
  }

  lemma Core256At10()
    ensures Mixed(AES, 8, 5, 0, 0x3982c559) == 0xcb1213b6
  {
  }

  lemma RoundKey256At10()
    ensures Ends256(AES, KEY256, 44, Quad(0x04e214c8, 0x8afba976, 0x2dc02550, 0x3982c559),
                    Quad(0x676913de, 0x715acc6c, 0x956325fa, 0x15ee7496))
  {
    RoundKey256At9();
    Core256At10();
    GoesOn256(AES, KEY256, 10, Quad(0xac7b0068, 0x1633dfb2, 0xe439e996, 0x808d516c),
              Quad(0x04e214c8, 0x8afba976, 0x2dc02550, 0x3982c559), 0xcb1213b6,
              Quad(0x676913de, 0x715acc6c, 0x956325fa, 0x15ee7496));
  }

  lemma Core256At11()
    ensures Mixed(AES, 8, 5, 4, 0x15ee7496) == 0x59289290
  {
  }

  lemma RoundKey256At11()
    ensures Ends256(AES, KEY256, 48, Quad(0x676913de, 0x715acc6c, 0x956325fa, 0x15ee7496),
                    Quad(0x5dca8658, 0xd7312f2e, 0xfaf10a7e, 0xc373cf27))
  {
    RoundKey256At10();
    Core256At11();
    GoesOn256(AES, KEY256, 11, Quad(0x04e214c8, 0x8afba976, 0x2dc02550, 0x3982c559),
              Quad(0x676913de, 0x715acc6c, 0x956325fa, 0x15ee7496), 0x59289290,
              Quad(0x5dca8658, 0xd7312f2e, 0xfaf10a7e, 0xc373cf27));
  }

  lemma Core256At12()
    ensures Mixed(AES, 8, 6, 0, 0xc373cf27) == 0xcc2e8faa
  {
  }

  lemma RoundKey256At12()
    ensures Ends256(AES, KEY256, 52, Quad(0x5dca8658, 0xd7312f2e, 0xfaf10a7e, 0xc373cf27),
                    Quad(0xab479c74, 0xda1d5018, 0x4f7e75e2, 0x5a900174))
  {
    RoundKey256At11();
    Core256At12();
    GoesOn256(AES, KEY256, 12, Quad(0x676913de, 0x715acc6c, 0x956325fa, 0x15ee7496),
              Quad(0x5dca8658, 0xd7312f2e, 0xfaf10a7e, 0xc373cf27), 0xcc2e8faa,
              Quad(0xab479c74, 0xda1d5018, 0x4f7e75e2, 0x5a900174));
  }

  lemma Core256At13()
    ensures Mixed(AES, 8, 6, 4, 0x5a900174) == 0xbe607c92
  {
  }

  lemma RoundKey256At13()
    ensures Ends256(AES, KEY256, 56, Quad(0xab479c74, 0xda1d5018, 0x4f7e75e2, 0x5a900174),
                    Quad(0xe3aafaca, 0x349bd5e4, 0xce6adf9a, 0x0d1910bd))
  {
    RoundKey256At12();
    Core256At13();
    GoesOn256(AES, KEY256, 13, Quad(0x5dca8658, 0xd7312f2e, 0xfaf10a7e, 0xc373cf27),
              Quad(0xab479c74, 0xda1d5018, 0x4f7e75e2, 0x5a900174), 0xbe607c92,
              Quad(0xe3aafaca, 0x349bd5e4, 0xce6adf9a, 0x0d1910bd));
  }

  lemma Core256At14()
    ensures Mixed(AES, 8, 7, 0, 0x0d1910bd) == 0x7ad7d48a
  {
  }

  lemma RoundKey256At14()
    ensures Ends256(AES, KEY256, 60, Quad(0xe3aafaca, 0x349bd5e4, 0xce6adf9a, 0x0d1910bd),
                    Quad(0xd19048fe, 0x0b8d18e6, 0x44f36d04, 0x1e636c70))
  {
    RoundKey256At13();
    Core256At14();
    GoesOn256(AES, KEY256, 14, Quad(0xab479c74, 0xda1d5018, 0x4f7e75e2, 0x5a900174),
              Quad(0xe3aafaca, 0x349bd5e4, 0xce6adf9a, 0x0d1910bd), 0x7ad7d48a,
              Quad(0xd19048fe, 0x0b8d18e6, 0x44f36d04, 0x1e636c70));
  }
}
