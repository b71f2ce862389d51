/** The prime P of the Pallas base field has no divisor between 1 and 2^64: a chain of certificates
    from 7 up to P. Every Window of a proof computes four more bits of an exponent. */
module PallasCertificate {
  import opened Modular
  import opened Primality

  const P: nat := 0x40000000000000000000000000000000224698fc094cf91b992d30ed00000001
  const LARGE_FACTOR: nat := 0x1d3af59550161cf575  // a prime factor of P - 1, above 2^64

  lemma Prime7()
    ensures Prime(7)
  {
    forall d: nat | 0 < d && 7 % d == 0 ensures d == 1 || d == 7 {
      DivisorAtMost(d, 7);
      assert 7 % 2 != 0 && 7 % 3 != 0 && 7 % 4 != 0 && 7 % 5 != 0 && 7 % 6 != 0;
    }
  }

  lemma Order43(f: nat -> int)
    requires Exponential(f, 43) && f(1) == 21
    ensures f(7) == 1
  {
    NextPower(f, 43, 21, 1, 21, 11);
    NextPower(f, 43, 21, 2, 11, 16);
    NextPower(f, 43, 21, 3, 16, 35);
    NextPower(f, 43, 21, 4, 35, 4);
    NextPower(f, 43, 21, 5, 4, 41);
    NextPower(f, 43, 21, 6, 41, 1);
  }

  lemma Prime43()
    ensures Prime(43)
  {
    Prime7();
    var f := PowersFunction(21, 43);
    Order43(f);
    PrimeByPowers(f, 43, 7, 21, 28);
  }

  lemma Order173(f: nat -> int)
    requires Exponential(f, 173) && f(1) == 16
    ensures f(43) == 1
  {
    NextPower(f, 173, 16, 1, 16, 83);
    NextPower(f, 173, 16, 2, 83, 117);
    NextPower(f, 173, 16, 3, 117, 142);
    NextPower(f, 173, 16, 4, 142, 23);
    NextPower(f, 173, 16, 5, 23, 22);
    NextPower(f, 173, 16, 6, 22, 6);
    NextPower(f, 173, 16, 7, 6, 96);
    NextPower(f, 173, 16, 8, 96, 152);
    NextPower(f, 173, 16, 9, 152, 10);
    NextPower(f, 173, 16, 10, 10, 160);
    Window(f, 173, 2, 83, 142, 96, 47, 133, 11, 160, 1);
  }

  lemma Prime173()
    ensures Prime(173)
  {
    Prime43();
    var f := PowersFunction(16, 173);
    Order173(f);
    PrimeByPowers(f, 173, 43, 16, 150);
  }

  lemma Order6229(f: nat -> int)
    requires Exponential(f, 6229) && f(1) == 2600
    ensures f(173) == 1
  {
    NextPower(f, 6229, 2600, 1, 2600, 1535);
    NextPower(f, 6229, 2600, 2, 1535, 4440);
    NextPower(f, 6229, 2600, 3, 4440, 1663);
    NextPower(f, 6229, 2600, 4, 1663, 874);
    NextPower(f, 6229, 2600, 5, 874, 5044);
    NextPower(f, 6229, 2600, 6, 5044, 2355);
    NextPower(f, 6229, 2600, 7, 2355, 6122);
    NextPower(f, 6229, 2600, 8, 6122, 2105);
    NextPower(f, 6229, 2600, 9, 2105, 3938);
    NextPower(f, 6229, 2600, 10, 3938, 4553);
    NextPower(f, 6229, 2600, 11, 4553, 2700);
    NextPower(f, 6229, 2600, 12, 2700, 6146);
    Window(f, 6229, 10, 3938, 3863, 4314, 4573, 1576, 13, 6146, 1);
  }

  lemma Prime6229()
    ensures Prime(6229)
  {
    Prime173();
    var f := PowersFunction(2600, 6229);
    Order6229(f);
    PrimeByPowers(f, 6229, 173, 2600, 290);
  }

  lemma Order24917(f: nat -> int)
    requires Exponential(f, 24917) && f(1) == 16
    ensures f(6229) == 1
  {
    NextPower(f, 24917, 16, 1, 16, 256);
    NextPower(f, 24917, 16, 2, 256, 4096);
    NextPower(f, 24917, 16, 3, 4096, 15702);
    NextPower(f, 24917, 16, 4, 15702, 2062);
    NextPower(f, 24917, 16, 5, 2062, 8075);
    NextPower(f, 24917, 16, 6, 8075, 4615);
    NextPower(f, 24917, 16, 7, 4615, 24006);
    Window(f, 24917, 1, 16, 256, 15702, 24006, 7660, 8, 24006, 23417);
    Window(f, 24917, 24, 23417, 7470, 11737, 15993, 3044, 5, 2062, 22561);
    Window(f, 24917, 389, 22561, 19162, 5332, 24844, 5329, 5, 2062, 1);
  }

  lemma Prime24917()
    ensures Prime(24917)
  {
    Prime6229();
    var f := PowersFunction(16, 24917);
    Order24917(f);
    PrimeByPowers(f, 24917, 6229, 16, 11628);
  }

  lemma Order149503(f: nat -> int)
    requires Exponential(f, 149503) && f(1) == 64
    ensures f(24917) == 1
  {
    NextPower(f, 149503, 64, 1, 64, 4096);
    NextPower(f, 149503, 64, 2, 4096, 112641);
    NextPower(f, 149503, 64, 3, 112641, 32880);
    NextPower(f, 149503, 64, 4, 32880, 11278);
    NextPower(f, 149503, 64, 5, 11278, 123780);
    Window(f, 149503, 6, 123780, 121954, 70173, 69618, 77670, 1, 64, 37281);
    Window(f, 149503, 97, 37281, 93073, 80503, 76965, 3359, 5, 11278, 58543);
    Window(f, 149503, 1557, 58543, 76077, 290, 84100, 122076, 5, 11278, 1);
  }

  lemma Prime149503()
    ensures Prime(149503)
  {
    Prime24917();
    var f := PowersFunction(64, 149503);
    Order149503(f);
    PrimeByPowers(f, 149503, 24917, 64, 111534);
  }

  lemma Order897019(f: nat -> int)
    requires Exponential(f, 897019) && f(1) == 64
    ensures f(149503) == 1
  {
    NextPower(f, 897019, 64, 1, 64, 4096);
    NextPower(f, 897019, 64, 2, 4096, 262144);
    NextPower(f, 897019, 64, 3, 262144, 630874);
    NextPower(f, 897019, 64, 4, 630874, 10081);
    NextPower(f, 897019, 64, 5, 10081, 645184);
    NextPower(f, 897019, 64, 6, 645184, 28902);
    NextPower(f, 897019, 64, 7, 28902, 55690);
    NextPower(f, 897019, 64, 8, 55690, 873103);
    NextPower(f, 897019, 64, 9, 873103, 263414);
    NextPower(f, 897019, 64, 10, 263414, 712154);
    NextPower(f, 897019, 64, 11, 712154, 726906);
    NextPower(f, 897019, 64, 12, 726906, 774015);
    NextPower(f, 897019, 64, 13, 774015, 200915);
    NextPower(f, 897019, 64, 14, 200915, 300294);
    Window(f, 897019, 2, 4096, 630874, 55690, 381417, 386469, 4, 630874, 788649);
    Window(f, 897019, 36, 788649, 284152, 781895, 79651, 563433, 7, 28902, 754659);
    Window(f, 897019, 583, 754659, 19333, 604985, 672750, 729031, 15, 300294, 766050);
    Window(f, 897019, 9343, 766050, 81643, 728279, 10502, 855686, 15, 300294, 1);
  }

  lemma Prime897019()
    ensures Prime(897019)
  {
    Prime149503();
    var f := PowersFunction(64, 897019);
    Order897019(f);
    PrimeByPowers(f, 897019, 149503, 64, 71192);
  }

  lemma OrderMedium(f: nat -> int)
    requires Exponential(f, 0x613f7fb9b5) && f(1) == 0x586234709b
    ensures f(897019) == 1
  {
    NextPower(f, 0x613f7fb9b5, 0x586234709b, 1, 0x586234709b, 0x8d2f297c3);
    NextPower(f, 0x613f7fb9b5, 0x586234709b, 2, 0x8d2f297c3, 0x23e4d9e9cc);
    NextPower(f, 0x613f7fb9b5, 0x586234709b, 3, 0x23e4d9e9cc, 0x12c96356fa);
    NextPower(f, 0x613f7fb9b5, 0x586234709b, 4, 0x12c96356fa, 0x5d17ab76c2);
    NextPower(f, 0x613f7fb9b5, 0x586234709b, 5, 0x5d17ab76c2, 0x3bc1d013ca);
    NextPower(f, 0x613f7fb9b5, 0x586234709b, 6, 0x3bc1d013ca, 0x569723101b);
    NextPower(f, 0x613f7fb9b5, 0x586234709b, 7, 0x569723101b, 0x2b6c314239);
    NextPower(f, 0x613f7fb9b5, 0x586234709b, 8, 0x2b6c314239, 0x41186f708c);
    NextPower(f, 0x613f7fb9b5, 0x586234709b, 9, 0x41186f708c, 0x24b5f0de5e);
    NextPower(f, 0x613f7fb9b5, 0x586234709b, 10, 0x24b5f0de5e, 0x19cfeea8f6);
    NextPower(f, 0x613f7fb9b5, 0x586234709b, 11, 0x19cfeea8f6, 0x5b12d53c69);
    NextPower(f, 0x613f7fb9b5, 0x586234709b, 12, 0x5b12d53c69, 0x55aa53f0ab);
    NextPower(f, 0x613f7fb9b5, 0x586234709b, 13, 0x55aa53f0ab, 0x1abb193b1e);
    NextPower(f, 0x613f7fb9b5, 0x586234709b, 14, 0x1abb193b1e, 0x1c7e2a40ff);
    Window(f, 0x613f7fb9b5, 13, 0x55aa53f0ab, 0x482ea7750f, 0x208ac4c95, 0x3010517341, 0x52745e61d6, 10, 0x24b5f0de5e,
        0x583286c01);
    Window(f, 0x613f7fb9b5, 218, 0x583286c01, 0x54e4545905, 0x39be462452, 0x293b63edfb, 0x585f115079, 15,
        0x1c7e2a40ff, 0x3a1ed90b7d);
    Window(f, 0x613f7fb9b5, 3503, 0x3a1ed90b7d, 0x1465ee1593, 0x5ffc0ad3e4, 0x43885305e5, 0x32f6344582, 15,
        0x1c7e2a40ff, 0x5c6ad22ac2);
    Window(f, 0x613f7fb9b5, 56063, 0x5c6ad22ac2, 0x3991602fbd, 0x3c5f426ab2, 0x5b7a67012b, 0x4c0bfec7e6, 11,
        0x19cfeea8f6, 1);
  }

  lemma PrimeMedium()
    ensures Prime(0x613f7fb9b5)
  {
    Prime897019();
    var f := PowersFunction(0x586234709b, 0x613f7fb9b5);
    OrderMedium(f);
    PrimeByPowers(f, 0x613f7fb9b5, 897019, 0x586234709b, 0x450f6b8038);
  }

  lemma OrderLarge(f: nat -> int)
    requires Exponential(f, 0x1d3af59550161cf575) && f(1) == 0x13c403f1f73a0ef841
    ensures f(0x613f7fb9b5) == 1
  {
    NextPower(f, 0x1d3af59550161cf575, 0x13c403f1f73a0ef841, 1, 0x13c403f1f73a0ef841, 0xf522faa3e0462a8a);
    NextPower(f, 0x1d3af59550161cf575, 0x13c403f1f73a0ef841, 2, 0xf522faa3e0462a8a, 0x13f47dfa6fa289e49e);
    NextPower(f, 0x1d3af59550161cf575, 0x13c403f1f73a0ef841, 3, 0x13f47dfa6fa289e49e, 0xde815c2ddc09e2169);
    NextPower(f, 0x1d3af59550161cf575, 0x13c403f1f73a0ef841, 4, 0xde815c2ddc09e2169, 0x132837ea0167843fa1);
    NextPower(f, 0x1d3af59550161cf575, 0x13c403f1f73a0ef841, 5, 0x132837ea0167843fa1, 0xf6ed3f7bf9f9cb426);
    NextPower(f, 0x1d3af59550161cf575, 0x13c403f1f73a0ef841, 6, 0xf6ed3f7bf9f9cb426, 0x15edfdc8f707b3079);
    NextPower(f, 0x1d3af59550161cf575, 0x13c403f1f73a0ef841, 7, 0x15edfdc8f707b3079, 0x92905f1e7c8aaafbf);
    NextPower(f, 0x1d3af59550161cf575, 0x13c403f1f73a0ef841, 8, 0x92905f1e7c8aaafbf, 0x4ba1025ab306cbecd);
    NextPower(f, 0x1d3af59550161cf575, 0x13c403f1f73a0ef841, 9, 0x4ba1025ab306cbecd, 0x173c30338c3cec4716);
    NextPower(f, 0x1d3af59550161cf575, 0x13c403f1f73a0ef841, 10, 0x173c30338c3cec4716, 0x1f41e142773e46324);
    NextPower(f, 0x1d3af59550161cf575, 0x13c403f1f73a0ef841, 11, 0x1f41e142773e46324, 0x115c78a12073e18152);
    NextPower(f, 0x1d3af59550161cf575, 0x13c403f1f73a0ef841, 12, 0x115c78a12073e18152, 0x196c94ec9766c2d3fd);
    NextPower(f, 0x1d3af59550161cf575, 0x13c403f1f73a0ef841, 13, 0x196c94ec9766c2d3fd, 0x68246cac58f222142);
    NextPower(f, 0x1d3af59550161cf575, 0x13c403f1f73a0ef841, 14, 0x68246cac58f222142, 0x12b33cb9ccef8c3b8f);
    Window(f, 0x1d3af59550161cf575, 6, 0xf6ed3f7bf9f9cb426, 0x115c78a12073e18152, 0xfbda269164f06c7b1,
        0x463d8e0a054aea8cc, 0xd71ac9be5e1b3fd05, 1, 0x13c403f1f73a0ef841, 0x6d15c3f153e6d6d9d);
    Window(f, 0x1d3af59550161cf575, 97, 0x6d15c3f153e6d6d9d, 0xdb2e06ebcdffb5596, 0x16c031d258e7ed88da,
        0xa22f459b76eabb106, 0x13e11a7ba133645635, 3, 0x13f47dfa6fa289e49e, 0x2d4dc402664baae7e);
    Window(f, 0x1d3af59550161cf575, 1555, 0x2d4dc402664baae7e, 0x17b5792393b0116c4c, 0x16128307c962c47bf4,
        0xf27cea49630cd58c6, 0x61953bc7a0ae39283, 15, 0x12b33cb9ccef8c3b8f, 0x1c4bbf4b4dbc7abb6f);
    Window(f, 0x1d3af59550161cf575, 24895, 0x1c4bbf4b4dbc7abb6f, 0x70940f030b58a60d1, 0x176ab177a7cfbe06,
        0x9249e4ebb6808169d, 0xda515f1ba3266e6c, 7, 0x15edfdc8f707b3079, 0x1f0dfa46184fa61f);
    Window(f, 0x1d3af59550161cf575, 398327, 0x1f0dfa46184fa61f, 0xb426fc28e3abd7f8c, 0xfaf8b293f83a025fb,
        0x1cd0ad6d9666a0e6b7, 0xc47ebd439ffffe05f, 15, 0x12b33cb9ccef8c3b8f, 0x907fc19d391445b39);
    Window(f, 0x1d3af59550161cf575, 6373247, 0x907fc19d391445b39, 0x850a06e55214d57ca, 0x14b1bde864c5e674a3,
        0x92cfb1a2c165934b4, 0x8fb2858012a4380fe, 11, 0x1f41e142773e46324, 0x10dc275ca9e77038e1);
    Window(f, 0x1d3af59550161cf575, 0x613f7fb, 0x10dc275ca9e77038e1, 0xd0f0ffc75e81c774c, 0xe1209e3524582a134,
        0x11189f10b7305620be, 0x1bb63625530036afb6, 9, 0x4ba1025ab306cbecd, 0x174bfc0f2ce473b65);
    Window(f, 0x1d3af59550161cf575, 0x613f7fb9, 0x174bfc0f2ce473b65, 0x1694ebfaba32ab0ba2, 0x162e60c8e714b48c26,
        0x1b25b5a0a9b97a8eed, 0xbd98b95ef10b4c193, 11, 0x1f41e142773e46324, 0x176d34dd46cb2cca36);
    Window(f, 0x1d3af59550161cf575, 0x613f7fb9b, 0x176d34dd46cb2cca36, 0xf69c2f5d5eb9a30fb, 0x3db498ce21ae825fc,
        0x1c54b0fda56276c03, 0x1648437a4912d1d89b, 5, 0x132837ea0167843fa1, 1);
  }

  lemma PrimeLarge()
    ensures Prime(0x1d3af59550161cf575)
  {
    PrimeMedium();
    var f := PowersFunction(0x13c403f1f73a0ef841, 0x1d3af59550161cf575);
    OrderLarge(f);
    PrimeByPowers(f, 0x1d3af59550161cf575, 0x613f7fb9b5, 0x13c403f1f73a0ef841, 0x136787aee5f3b69bf9);
  }

  lemma HalfOrderP(f: nat -> int)
    requires Exponential(f, 0x40000000000000000000000000000000224698fc094cf91b992d30ed00000001)
    requires f(1) == 0x28e3f9e8ad61a9a3167e6058cf3bd14a1634f1bfa0533a1d58a3cce3e2d56bd9
    ensures f(0x1d3af5955) == 0x24473969a3dd60c4f47959fcfec835eaaa91ef56d8022e3636bb041d0052e18a
    ensures f(5) == 0x1c5f041f566362afa3725b2f04359df1f7bc1fb34478f5d6e9687cf0d9da8bec
    ensures f(6) == 0x2fae56c400d930a34f343d64341828868320696d22982e831db9b081c633f8eb
    ensures f(7) == 0x4ddad866e41ae2994e59119fb7152a0a868e53962b13cc8f4ad767b61b7434b
    ensures f(12) == 0x2e6ca1a8e28bf065df3a9b8fe1e2305980eeb9688e7bc4e5e684eed61b8e1555
    ensures f(15) == 0xd36c35cf24a58dc85d8636b335d1e08c17fe9f10b9b2c1389a6eacc33da0d6e
  {
    NextPower(f, 0x40000000000000000000000000000000224698fc094cf91b992d30ed00000001,
        0x28e3f9e8ad61a9a3167e6058cf3bd14a1634f1bfa0533a1d58a3cce3e2d56bd9, 1,
        0x28e3f9e8ad61a9a3167e6058cf3bd14a1634f1bfa0533a1d58a3cce3e2d56bd9,
        0x2f6b5ee802234802a84c495c267d4eadb795e83c60eabc3aedd2dcd3d9ba77bb);
    NextPower(f, 0x40000000000000000000000000000000224698fc094cf91b992d30ed00000001,
        0x28e3f9e8ad61a9a3167e6058cf3bd14a1634f1bfa0533a1d58a3cce3e2d56bd9, 2,
        0x2f6b5ee802234802a84c495c267d4eadb795e83c60eabc3aedd2dcd3d9ba77bb,
        0x284708223aa50734fb2f7c93918f70df9611bc1c013509a5ee68d11578e22a4b);
    NextPower(f, 0x40000000000000000000000000000000224698fc094cf91b992d30ed00000001,
        0x28e3f9e8ad61a9a3167e6058cf3bd14a1634f1bfa0533a1d58a3cce3e2d56bd9, 3,
        0x284708223aa50734fb2f7c93918f70df9611bc1c013509a5ee68d11578e22a4b,
        0x24de05bba54872db87e39369b34741a58e6737caad39a0db8e35a53e2d9335f8);
    NextPower(f, 0x40000000000000000000000000000000224698fc094cf91b992d30ed00000001,
        0x28e3f9e8ad61a9a3167e6058cf3bd14a1634f1bfa0533a1d58a3cce3e2d56bd9, 4,
        0x24de05bba54872db87e39369b34741a58e6737caad39a0db8e35a53e2d9335f8,
        0x1c5f041f566362afa3725b2f04359df1f7bc1fb34478f5d6e9687cf0d9da8bec);
    NextPower(f, 0x40000000000000000000000000000000224698fc094cf91b992d30ed00000001,
        0x28e3f9e8ad61a9a3167e6058cf3bd14a1634f1bfa0533a1d58a3cce3e2d56bd9, 5,
        0x1c5f041f566362afa3725b2f04359df1f7bc1fb34478f5d6e9687cf0d9da8bec,
        0x2fae56c400d930a34f343d64341828868320696d22982e831db9b081c633f8eb);
    NextPower(f, 0x40000000000000000000000000000000224698fc094cf91b992d30ed00000001,
        0x28e3f9e8ad61a9a3167e6058cf3bd14a1634f1bfa0533a1d58a3cce3e2d56bd9, 6,
        0x2fae56c400d930a34f343d64341828868320696d22982e831db9b081c633f8eb,
        0x4ddad866e41ae2994e59119fb7152a0a868e53962b13cc8f4ad767b61b7434b);
    NextPower(f, 0x40000000000000000000000000000000224698fc094cf91b992d30ed00000001,
        0x28e3f9e8ad61a9a3167e6058cf3bd14a1634f1bfa0533a1d58a3cce3e2d56bd9, 7,
        0x4ddad866e41ae2994e59119fb7152a0a868e53962b13cc8f4ad767b61b7434b,
        0x268ea9d780a6e7da6b4b768bf34e50c41f16c72c4fa47ad83ab76bc81ea4c3cc);
    NextPower(f, 0x40000000000000000000000000000000224698fc094cf91b992d30ed00000001,
        0x28e3f9e8ad61a9a3167e6058cf3bd14a1634f1bfa0533a1d58a3cce3e2d56bd9, 8,
        0x268ea9d780a6e7da6b4b768bf34e50c41f16c72c4fa47ad83ab76bc81ea4c3cc,
        0x26239965e3e811e9d571a28260fae1746e501805e99777eac8c62750d4999e00);
    NextPower(f, 0x40000000000000000000000000000000224698fc094cf91b992d30ed00000001,
        0x28e3f9e8ad61a9a3167e6058cf3bd14a1634f1bfa0533a1d58a3cce3e2d56bd9, 9,
        0x26239965e3e811e9d571a28260fae1746e501805e99777eac8c62750d4999e00,
        0xba8ec3b885b28c7471d2c3c938cbf85feb4d8f7227cea3841a4de44554089b4);
    NextPower(f, 0x40000000000000000000000000000000224698fc094cf91b992d30ed00000001,
        0x28e3f9e8ad61a9a3167e6058cf3bd14a1634f1bfa0533a1d58a3cce3e2d56bd9, 10,
        0xba8ec3b885b28c7471d2c3c938cbf85feb4d8f7227cea3841a4de44554089b4,
        0x376f0300dc0da01f11bcb9d5adf7ac7c0e1eb075d4357f72bf9db8cd9573edd2);
    NextPower(f, 0x40000000000000000000000000000000224698fc094cf91b992d30ed00000001,
        0x28e3f9e8ad61a9a3167e6058cf3bd14a1634f1bfa0533a1d58a3cce3e2d56bd9, 11,
        0x376f0300dc0da01f11bcb9d5adf7ac7c0e1eb075d4357f72bf9db8cd9573edd2,
        0x2e6ca1a8e28bf065df3a9b8fe1e2305980eeb9688e7bc4e5e684eed61b8e1555);
    NextPower(f, 0x40000000000000000000000000000000224698fc094cf91b992d30ed00000001,
        0x28e3f9e8ad61a9a3167e6058cf3bd14a1634f1bfa0533a1d58a3cce3e2d56bd9, 12,
        0x2e6ca1a8e28bf065df3a9b8fe1e2305980eeb9688e7bc4e5e684eed61b8e1555,
        0x2c519be63b47826e9888b87fceb9967edc9e8dd610f59701476bf7f16e0b8cf2);
    NextPower(f, 0x40000000000000000000000000000000224698fc094cf91b992d30ed00000001,
        0x28e3f9e8ad61a9a3167e6058cf3bd14a1634f1bfa0533a1d58a3cce3e2d56bd9, 13,
        0x2c519be63b47826e9888b87fceb9967edc9e8dd610f59701476bf7f16e0b8cf2,
        0x152341be6204a5dd2b48cc0407d85decd28d3f518904008ac26cd9ca64d26227);
    NextPower(f, 0x40000000000000000000000000000000224698fc094cf91b992d30ed00000001,
        0x28e3f9e8ad61a9a3167e6058cf3bd14a1634f1bfa0533a1d58a3cce3e2d56bd9, 14,
        0x152341be6204a5dd2b48cc0407d85decd28d3f518904008ac26cd9ca64d26227,
        0xd36c35cf24a58dc85d8636b335d1e08c17fe9f10b9b2c1389a6eacc33da0d6e);
    Window(f, 0x40000000000000000000000000000000224698fc094cf91b992d30ed00000001, 1,
        0x28e3f9e8ad61a9a3167e6058cf3bd14a1634f1bfa0533a1d58a3cce3e2d56bd9,
        0x2f6b5ee802234802a84c495c267d4eadb795e83c60eabc3aedd2dcd3d9ba77bb,
        0x24de05bba54872db87e39369b34741a58e6737caad39a0db8e35a53e2d9335f8,
        0x268ea9d780a6e7da6b4b768bf34e50c41f16c72c4fa47ad83ab76bc81ea4c3cc,
        0x11617dcc2395842354b35e8aa390aa0dd0a461aa7c5c82fdf8f7700e075fad52, 13,
        0x2c519be63b47826e9888b87fceb9967edc9e8dd610f59701476bf7f16e0b8cf2,
        0x3dfa54e4f649cd0bf4411cb8d931469135097bca0835e18e1f6c2a49df9b8cc2);
    Window(f, 0x40000000000000000000000000000000224698fc094cf91b992d30ed00000001, 29,
        0x3dfa54e4f649cd0bf4411cb8d931469135097bca0835e18e1f6c2a49df9b8cc2,
        0x376f7ad0e3c9aa6f21c6a09164eabc1660d327109e4310810052e7d9c5d5ab8c,
        0x45c241a3205062c4ecd334b26fad5d235a905375b0882400622b78bb142d551,
        0x3eb7ba449d6485e9fe01a7071ac126ba365af8f78782031a8a276cfdc35a2e18,
        0x7f2d13da8df5154c065847e21066eb79f3b4cd670b08eff20325ba9e82778b3, 3,
        0x284708223aa50734fb2f7c93918f70df9611bc1c013509a5ee68d11578e22a4b,
        0x112fd2f36b864a3945936fe76c7842f8e2e51644c7426867d50d04ddffa99cfc);
    Window(f, 0x40000000000000000000000000000000224698fc094cf91b992d30ed00000001, 467,
        0x112fd2f36b864a3945936fe76c7842f8e2e51644c7426867d50d04ddffa99cfc,
        0x246df506f0d80be2c27b947a60b397294c609ef11716471d8b7246fd54042bd5,
        0x3c676ed3cea6c1fbee311db3048b38710d8d9a52bd25dadbc71d6ecec3f225bb,
        0xd2cd8506601d6908d09990afb3efde13449b613055f184ca059bdd0d72d8374,
        0x387dc1298eef653836c56894ee855dbadaa56676ae09a94c031a40c99f4e7f7c, 10,
        0xba8ec3b885b28c7471d2c3c938cbf85feb4d8f7227cea3841a4de44554089b4,
        0x29a17d02bcfa9d3056595487d7932293f14df8e1283edf9880fba9efd8c86fd);
    Window(f, 0x40000000000000000000000000000000224698fc094cf91b992d30ed00000001, 7482,
        0x29a17d02bcfa9d3056595487d7932293f14df8e1283edf9880fba9efd8c86fd,
        0x3ea4b7ee851903fe5e7ba3df963f2dbd6a894726e7463a94265328ccb3c54407,
        0x32106671136cd83326fd41d621fd9cfdfb98d9f141d25092b34fad55237e91ab,
        0x16f4c1b96043c345d4df76150782ce49e4c068ccca988f0a081bac349c541578,
        0x1b15765102de98018a625fc45078a2a9166a622867da677ebc3e60f58fa3a957, 15,
        0xd36c35cf24a58dc85d8636b335d1e08c17fe9f10b9b2c1389a6eacc33da0d6e,
        0x3c74aa55de73cdad93601de2ff9a00898c8a077992bea9564e37507afba08c3a);
    Window(f, 0x40000000000000000000000000000000224698fc094cf91b992d30ed00000001, 119727,
        0x3c74aa55de73cdad93601de2ff9a00898c8a077992bea9564e37507afba08c3a,
        0x385063bbbc1e524be09912dc19c964205fe162bcec1ad9fa2eba97329061f5eb,
        0x18b6b19e9a1407ad29b6a0a7a8d1940527c483a09308019780f881411e3d582,
        0x2f55a0731c5361534f85a9a7621aad719e312f5b6cc37bc9895625d1848cb7e,
        0xc9f9babc00c5c6ed04d838f4805b8e913788cbfbaf7f64278b63b22e997d885, 5,
        0x1c5f041f566362afa3725b2f04359df1f7bc1fb34478f5d6e9687cf0d9da8bec,
        0x2e1fa38381e95bad443e4f24375cc7da7df22117ce3ff3ed831515cbce8d18ae);
    Window(f, 0x40000000000000000000000000000000224698fc094cf91b992d30ed00000001, 1915637,
        0x2e1fa38381e95bad443e4f24375cc7da7df22117ce3ff3ed831515cbce8d18ae,
        0x2c23da410d0a755978bde0154c8962b938217eafcf607ce399c45508eed99643,
        0x2b2939c764cf38005473b68af46ac12ac64217206fc748f96f31900eee8ae2b2,
        0x15362c86afe830d0245cd217dd0a0e8b7cdf72e9166145323c412cde394b0fc3,
        0x284feb8d20978ed3fab79abf825829be8d330faa500505720ce15f72799252c9, 9,
        0x26239965e3e811e9d571a28260fae1746e501805e99777eac8c62750d4999e00,
        0x2683317cf96bd52f22ceff8716ee3e3e469fa2bc614a82ea5835a201d40ba015);
    Window(f, 0x40000000000000000000000000000000224698fc094cf91b992d30ed00000001, 0x1d3af59,
        0x2683317cf96bd52f22ceff8716ee3e3e469fa2bc614a82ea5835a201d40ba015,
        0x11058f5df6841ac842d071e69061a93fed578ffae4f8413a8f619223ed2b4de4,
        0x2b7a8150364a72ad0c07f4c995ae7f1dad0b7faff564f79bf569689b0a0a78ac,
        0x1dd09bb4e268986bcb6472545151234cd11e23072bb9388e34390ba355f13a4b,
        0x382dc84e1fe893b8d382708a91a285fb7c33baa1ef2eaa10b81707258771876f, 5,
        0x1c5f041f566362afa3725b2f04359df1f7bc1fb34478f5d6e9687cf0d9da8bec,
        0x2380726aa1fa96bf6f052634a2d614814c45e363dca2a84cc1c253d1d6ba630a);
    Window(f, 0x40000000000000000000000000000000224698fc094cf91b992d30ed00000001, 0x1d3af595,
        0x2380726aa1fa96bf6f052634a2d614814c45e363dca2a84cc1c253d1d6ba630a,
        0x48a21692704f137eb91113c091f3d71a7bc019e9f0ca029e1627da15f5518f0,
        0x2a97d44c706ff5ee6e8b2d29d59ad1ea50c0a80d741579abfc15fad4ceca985b,
        0xaa24cdf13cc58351e70e493f9b874a186994faa4ee552f374100484e0f6658a,
        0x3bf2732b8fbd36f3e48d3a218c23a763e85974d6e76d37e8e5236db280b75954, 5,
        0x1c5f041f566362afa3725b2f04359df1f7bc1fb34478f5d6e9687cf0d9da8bec,
        0x24473969a3dd60c4f47959fcfec835eaaa91ef56d8022e3636bb041d0052e18a);
  }

  lemma OrderP(f: nat -> int)
    requires Exponential(f, 0x40000000000000000000000000000000224698fc094cf91b992d30ed00000001)
    requires f(1) == 0x28e3f9e8ad61a9a3167e6058cf3bd14a1634f1bfa0533a1d58a3cce3e2d56bd9
    ensures f(0x1d3af59550161cf575) == 1
  {
    HalfOrderP(f);
    Window(f, 0x40000000000000000000000000000000224698fc094cf91b992d30ed00000001, 0x1d3af5955,
        0x24473969a3dd60c4f47959fcfec835eaaa91ef56d8022e3636bb041d0052e18a,
        0x9b9d4c3acdddbb3cfa33dea14ef57714dcc7041920a3574d978a67bd22cc171,
        0x3068464c024253d46e1cf624c6261d909ef34788aadea13608a5432a499882a3,
        0x18f5117a30a2337c096b946eb69a2bafd8211839fda20a8c5aa78ecf4e5051ff,
        0x1c8bfa6895ad45328e002679c0cb3d310af9a12c3a4e144b4bc99017554371bc, 0, 1,
        0x1c8bfa6895ad45328e002679c0cb3d310af9a12c3a4e144b4bc99017554371bc);
    Window(f, 0x40000000000000000000000000000000224698fc094cf91b992d30ed00000001, 0x1d3af59550,
        0x1c8bfa6895ad45328e002679c0cb3d310af9a12c3a4e144b4bc99017554371bc,
        0x37fbe9daa5a374159b1a0e9c299e556b09f9f41393139689e7767b7076c89bae,
        0xcffde2013f06fef49e9c4d45da6f0f1ffa5961816702c235369c3fe141cd17b,
        0x1db4c8d2db36a467249ea36c68de0a5354cadda5f5007f9e22415a4d6abb6d90,
        0x1e922edb96d2aa06fc2a027a4b5bc15ff4cae04a3e1fb13fb5b3fcedea2edaa2, 1,
        0x28e3f9e8ad61a9a3167e6058cf3bd14a1634f1bfa0533a1d58a3cce3e2d56bd9,
        0x3ac3bc12c475f77f234ca0e3a4c0ccdcec578cd883f68357885744d1fd416a15);
    Window(f, 0x40000000000000000000000000000000224698fc094cf91b992d30ed00000001, 0x1d3af595501,
        0x3ac3bc12c475f77f234ca0e3a4c0ccdcec578cd883f68357885744d1fd416a15,
        0x3295efc8af9585c6c3e39743d597c44f514679f5b1d9d0821887cb9f98a1b389,
        0x23899dcbe510f51256b44cbe740d0c1cd409c8f89f928869f8dcee23dd2f50f9,
        0x51ea3aa9ef63e736624eb2c0f6915bb55b98ab9a20fd9eec064c0b19341696d,
        0xcc06b95a78ccdde3e6426339c5ff8f32bdaa3bac9a01210a6cea98fa5581cba, 6,
        0x2fae56c400d930a34f343d64341828868320696d22982e831db9b081c633f8eb,
        0x214c22a068100e2d30a25e8bb2ef8c6eec6f52bae5a70c9f13d70cf8ee21da79);
    Window(f, 0x40000000000000000000000000000000224698fc094cf91b992d30ed00000001, 0x1d3af5955016,
        0x214c22a068100e2d30a25e8bb2ef8c6eec6f52bae5a70c9f13d70cf8ee21da79,
        0x1a5458afc0f778232484078a0333f4a874f4ffa73e5a58806b62ec330f73fe47,
        0x1c22914bb83510e5403ff89943f37d19a50ceb5f4cf608cb12f2fe24bd55ec81,
        0x30a1ea3ff35316436116fe19c5c94e8cd854d6b8432f67e93ffa3d9c59cf4369,
        0x2284b2f493d6680082d1e5e5585e4fec16c4cc0a67f1414f52dd50051b3248c1, 1,
        0x28e3f9e8ad61a9a3167e6058cf3bd14a1634f1bfa0533a1d58a3cce3e2d56bd9,
        0x1c2626855d39f8b5d0e5fff952c9e9f3ada96188e3f8e8d4ce497f4f7ddcdecc);
    Window(f, 0x40000000000000000000000000000000224698fc094cf91b992d30ed00000001, 0x1d3af59550161,
        0x1c2626855d39f8b5d0e5fff952c9e9f3ada96188e3f8e8d4ce497f4f7ddcdecc,
        0x18bc15991ef89c194c8302266f613be5df4ea938e3316cb1cacae6ebb1e4816f,
        0x1026cc5ae90064005f541aa961a1637daa296e33d94c037daa2c66b8213d9080,
        0x1e7a0ede3eee5fe2ea51046ad64d96f37129ff443c9e30980258605eb395936d,
        0x2eda6e52768487ad5e83a980275c97bf11db4c190e29b8389937c0a14cf0bcce, 12,
        0x2e6ca1a8e28bf065df3a9b8fe1e2305980eeb9688e7bc4e5e684eed61b8e1555,
        0xe312b2e86e019a060e3445d531625dc41c370a2f943fd79dfd02dfd609a74bc);
    Window(f, 0x40000000000000000000000000000000224698fc094cf91b992d30ed00000001, 0x1d3af59550161c,
        0xe312b2e86e019a060e3445d531625dc41c370a2f943fd79dfd02dfd609a74bc,
        0xeacfc0cef5f5a1220c302d96fbd14e09c525ed2b0c9d2f49a04bc35b00d45c2,
        0x2a4d488548cc6055da012dc78ad6394d7d62fa41d7accce086b4a6fa4d708957,
        0xaaa74287c879016dad24f8f67ff9334da48498e949c9d29bb324d812c682310,
        0x348f61ca7b91b2dac396cd293d6ae76b63d0639cb25fba9c7d5f3fbdf1bec77c, 15,
        0xd36c35cf24a58dc85d8636b335d1e08c17fe9f10b9b2c1389a6eacc33da0d6e,
        0x3f92c7ee0f55d06752af6db26276c6da84b53fe7a534b812a2cef47bac6e0699);
    Window(f, 0x40000000000000000000000000000000224698fc094cf91b992d30ed00000001, 0x1d3af59550161cf,
        0x3f92c7ee0f55d06752af6db26276c6da84b53fe7a534b812a2cef47bac6e0699,
        0x13e376838cd20c647e6421d8be9e9cd46a93b715a26194550253397e7e7356fa,
        0x2b14e310b0c7762f066b20f0182ba352fb13f252fb9e00e83e54db750738638f,
        0x380f881ada02a9189947a023742137980ccf825308a23ff718c91af18f4991a9,
        0xcf9745653d668bd07e791ad555637464e6d75f3a6d5b575cb725eee692a6eb9, 5,
        0x1c5f041f566362afa3725b2f04359df1f7bc1fb34478f5d6e9687cf0d9da8bec,
        0x1d516c4f2d4a7acd87fbfa031bd21823728d879ffde426742f3cf166e185a7c4);
    Window(f, 0x40000000000000000000000000000000224698fc094cf91b992d30ed00000001, 0x1d3af59550161cf5,
        0x1d516c4f2d4a7acd87fbfa031bd21823728d879ffde426742f3cf166e185a7c4,
        0x39526277e20d46db3bfb23b7a22584f5aa38b16b556771aaef20c317a435f289,
        0x1d4170cf4acd06fe54084d772cc05e735cc1c74fe220ef810c94f8304bd308c7,
        0x1edf1904998b81ba0a9c384d6e59464a7bb5002c4a6e87f7a87253de76019743,
        0x3ad05eeccc272575c90c7d773cef4e4c4335e918c4f817620e9c9b5ca6b6710d, 7,
        0x4ddad866e41ae2994e59119fb7152a0a868e53962b13cc8f4ad767b61b7434b,
        0x17797535c2ca9453dd28405208592945196e3b9dad5ea793952d5a04a86e78f5);
    Window(f, 0x40000000000000000000000000000000224698fc094cf91b992d30ed00000001, 0x1d3af59550161cf57,
        0x17797535c2ca9453dd28405208592945196e3b9dad5ea793952d5a04a86e78f5,
        0x313872fdac1594f516c1428dad2c602f5d3eb0ce013ffe0653aced90b0e1faa1,
        0x1d37e48f5257a121d74f69ce2a4b17c0491cdea672acb9ef628fdc0774b963ca,
        0x1635c83283460c01c80b14318466318445bea100e26dd8a3e9b118f726754728,
        0x28dc49897c9927bb79f9cf1b5054321357c5c7cc96b38ce8827cddef17aab9d9, 5,
        0x1c5f041f566362afa3725b2f04359df1f7bc1fb34478f5d6e9687cf0d9da8bec, 1);
  }

  /** Every divisor of P other than 1 is above 2^64. */
  lemma NoSmallDivisor(d: nat)
    requires d > 1 && P % d == 0
    ensures d > LARGE_FACTOR
  {
    PrimeLarge();
    var f := PowersFunction(0x28e3f9e8ad61a9a3167e6058cf3bd14a1634f1bfa0533a1d58a3cce3e2d56bd9, P);
    OrderP(f);
    DivisorsAbove(f, P, LARGE_FACTOR, 0x28e3f9e8ad61a9a3167e6058cf3bd14a1634f1bfa0533a1d58a3cce3e2d56bd9,
        0x1576b885fcf058923c0815413d27d1e23c7b2457a31f976f2b832f714647137, d);
  }
}
