/** The standard base point of edwards25519, y = 4/5 with the even x. base_point.py writes this file. */
module BasePoint {
  import opened Words
  import opened ModArith
  import opened Limbs
  import opened Bytes
  import opened Field
  import opened EdwardsLaw
  import opened Curve

  const BASE_ENCODING: seq<byte> := [
    0x58, 0x66, 0x66, 0x66, 0x66, 0x66, 0x66, 0x66, 0x66, 0x66, 0x66, 0x66, 0x66, 0x66, 0x66, 0x66,
    0x66, 0x66, 0x66, 0x66, 0x66, 0x66, 0x66, 0x66, 0x66, 0x66, 0x66, 0x66, 0x66, 0x66, 0x66, 0x66]

  const BASE_X: int := 0x216936d3cd6e53fec0a4e231fdd6dc5c692cc7609525a7b2c9562d608f25d51a
  const BASE_Y: int := 0x6666666666666666666666666666666666666666666666666666666666666658

  const U: int := 0x51eb851eb851eb851eb851eb851eb851eb851eb851eb851eb851eb851eb851df
  const V: int := 0x4e16ac1d8c70a2d94fdbae6237fc19fae18f62c0cd9ac81bd096982f688b2e7a
  const V3: int := 0x2201048ec667a7dc5e3ee043e6971bcc14cbce3f87e427b44a0d19328708a964
  const W: int := 0x2837014753370e0caab49cee60ac636b8b9e0e1f938e36d0a7895540b0a05008
  const ROOT: int := 0x5e96c92c3291ac013f5b1dce022923a396d3389f6ada584d36a9d29f70da2ad3

  /** The 31 equal bytes of the encoding. */
  ghost function Power256(n: nat): nat {
    if n == 0 then 1 else 0x100 * Power256(n - 1)
  }

  lemma {:induction false} EqualBytes(s: seq<byte>)
    requires forall i :: 0 <= i < |s| ==> s[i] == 0x66
    ensures 5 * BytesValue(s) == 2 * (Power256(|s|) - 1)
  {
    if s != [] {
      EqualBytes(s[1..]);
    }
  }

  lemma EncodedValue()
    ensures BytesValue(BASE_ENCODING) == BASE_Y
  {
    assert Power256(8) == 0x1_0000_0000_0000_0000;
    assert Power256(16) == 0x1_0000_0000_0000_0000_0000_0000_0000_0000;
    assert Power256(24) == 0x1_0000_0000_0000_0000_0000_0000_0000_0000_0000_0000_0000_0000;
    assert Power256(31) == 0x100000000000000000000000000000000000000000000000000000000000000;
    EqualBytes(BASE_ENCODING[1..]);
  }

  ghost predicate IsPower(base: int, e: nat, t: int) {
    Cong(Power(base, e), t, P)
  }

  /** One multiplication of the chain; q is the quotient of the product by p. */
  lemma Times(base: int, e: nat, t: int, f: nat, s: int, q: int) returns (ef: nat, ts: int)
    requires IsPower(base, e, t) && IsPower(base, f, s)
    ensures ef == e + f && ts == t * s - q * 0x7fffffffffffffffffffffffffffffffffffffffffffffffffffffffffffffed
    ensures IsPower(base, ef, ts)
  {
    ef, ts := e + f, t * s - q * P;
    Constants();
    hide Prime;
    PowerSum(base, e, f);
    CongMul(Power(base, e), t, Power(base, f), s, P);
    CongMultiple(t * s, -q, P);
  }

  lemma Ones1()
    ensures IsPower(W, 1, W)
  {
    assert Power(W, 1) == W * Power(W, 0);
  }

  // W to the exponents 2^n - 1, from n = 1 up to 250.

  lemma Ones1Times1()
    ensures IsPower(W, 0x2, 0x2906b50b705b0d3d60746c5346c3d762758104dfe14346cbb47e47dd242cdb46)
  {
    hide Prime, IsPower;
    Ones1();
    var e, t := 0x1, 0x2837014753370e0caab49cee60ac636b8b9e0e1f938e36d0a7895540b0a05008;
    e, t := Times(W, e, t, e, t, 0xca2786fad51312360f8dbea8de85993028fb4c54a1b8f2a8b9e887f0d88d5a2);
  }

  lemma Ones2()
    ensures IsPower(W, 0x3, 0x453f35a5b730234f1a2459697ba3576ec57cca2eaac98fe3c4435d6bd3407807)
  {
    hide Prime, IsPower;
    Ones1();
    Ones1Times1();
    var e, t := 0x2, 0x2906b50b705b0d3d60746c5346c3d762758104dfe14346cbb47e47dd242cdb46;
    e, t := Times(W, e, t, 0x1, 0x2837014753370e0caab49cee60ac636b8b9e0e1f938e36d0a7895540b0a05008,
        0xce3b9de47d53d43e809fded53a30543f3a4cb45c839528e68a5a8782f3dabad);
  }

  lemma Ones2Times1()
    ensures IsPower(W, 0x6, 0x4d7a817ad93033e927f17994ddbc277a4ac4c4a58603b4b7c8f089807998d2ce)
  {
    hide Prime, IsPower;
    Ones2();
    var e, t := 0x3, 0x453f35a5b730234f1a2459697ba3576ec57cca2eaac98fe3c4435d6bd3407807;
    e, t := Times(W, e, t, e, t, 0x2576450d8f1c4bb335912cd3f0b4ab7e5b38baeb7873b1fe2a18ef8e3f5be88f);
  }

  lemma Ones3()
    ensures IsPower(W, 0x7, 0x5c0a55213b005587e81087ad9af00a9ce08daf147bc964b02d62a16281303be2)
  {
    hide Prime, IsPower;
    Ones1();
    Ones2Times1();
    var e, t := 0x6, 0x4d7a817ad93033e927f17994ddbc277a4ac4c4a58603b4b7c8f089807998d2ce;
    e, t := Times(W, e, t, 0x1, 0x2837014753370e0caab49cee60ac636b8b9e0e1f938e36d0a7895540b0a05008,
        0x185793e027fdede060676c44c3beee11c91ef31552059f526007947f07ac4706);
  }

  lemma Ones3Times2()
    ensures IsPower(W, 0x1c, 0x702a2cbc2ccfe5c80f1c684d7a342f48193cf00c8b16916e399453cbb1a2799f)
  {
    hide Prime, IsPower;
    Ones3();
    var e, t := 0x7, 0x5c0a55213b005587e81087ad9af00a9ce08daf147bc964b02d62a16281303be2;
    e, t := Times(W, e, t, e, t, 0x422edb354a9fddfdb3caeec1e1a819a503ce90aacf09ae7c3bdda6756252987c);
    e, t := Times(W, e, t, e, t, 0x118fe6d2903d06be497170449619796582c40a9c98599aa1f370bba8c8779705);
  }

  lemma Ones5()
    ensures IsPower(W, 0x1f, 0xff60eac00c58f24f4cf870bfcd9d35269c988b4b8b15e02176d1bdad3b35b84)
  {
    hide Prime, IsPower;
    Ones2();
    Ones3Times2();
    var e, t := 0x1c, 0x702a2cbc2ccfe5c80f1c684d7a342f48193cf00c8b16916e399453cbb1a2799f;
    e, t := Times(W, e, t, 0x3, 0x453f35a5b730234f1a2459697ba3576ec57cca2eaac98fe3c4435d6bd3407807,
        0x3cae1fe222303007718d4e8599a7a50059cd219378982f3d700e2e09708d7289);
  }

  lemma Ones5Times5()
    ensures IsPower(W, 0x3e0, 0x337ad96160290db9492073400fe581945d3fea8db83eaca0f7049e2e04c0f16a)
  {
    hide Prime, IsPower;
    Ones5();
    var e, t := 0x1f, 0xff60eac00c58f24f4cf870bfcd9d35269c988b4b8b15e02176d1bdad3b35b84;
    e, t := Times(W, e, t, e, t, 0x1fd8470b6ffcc3829af9b207672aec9b0cd60d8ab169da02e69ba0d92d492cb);
    e, t := Times(W, e, t, e, t, 0x60055cfca188f4d7fb37d1a18b7eab37d37d12e610d77e1bd86d43054ce4aaa);
    e, t := Times(W, e, t, e, t, 0x658613804bdaa9cca33c79179ab34e95561683e0e973809014a1a3c5e60032cf);
    e, t := Times(W, e, t, e, t, 0xc556786de983227326170bee0d60ab080b14e351c30379ca6d5b90f46b0a911);
    e, t := Times(W, e, t, e, t, 0x2975671605f487e6cb37ee64dea685683c947dc088d2026181c8bb3a25eb8583);
  }

  lemma Ones10()
    ensures IsPower(W, 0x3ff, 0x64c36e53309338a1d7d885f257f57adfb1bb487886ca2a64094b95c0f96b7878)
  {
    hide Prime, IsPower;
    Ones5();
    Ones5Times5();
    var e, t := 0x3e0, 0x337ad96160290db9492073400fe581945d3fea8db83eaca0f7049e2e04c0f16a;
    e, t := Times(W, e, t, 0x1f, 0xff60eac00c58f24f4cf870bfcd9d35269c988b4b8b15e02176d1bdad3b35b84,
        0x66b5b79cd93d48477109e3667895767ee23abd6c4345a235b67a92ae1f28af0);
  }

  lemma Ones10Times10()
    ensures IsPower(W, 0xffc00, 0x62f845335c3279009bb422721ce9f715637d0740ea6c5aeb5cc0ae091cdfcb7a)
  {
    hide Prime, IsPower;
    Ones10();
    var e, t := 0x3ff, 0x64c36e53309338a1d7d885f257f57adfb1bb487886ca2a64094b95c0f96b7878;
    e, t := Times(W, e, t, e, t, 0x4f5286c480753a9b8912a9b0698660b12d4bf24a52fe2bd8b6e257d3c9bf7226);
    e, t := Times(W, e, t, e, t, 0x4016520cb6f82d3d2240ad58726288e3312ab4049b52e8bfda426d87449d463);
    e, t := Times(W, e, t, e, t, 0x303ea912c3e05df9ab1b5df9163f25879a51fb2596c9112b3d2dfaefa63e91);
    e, t := Times(W, e, t, e, t, 0x197f838328dcd171831ccb0b6c22db14692bddca56144959a676b31a1c86417a);
    e, t := Times(W, e, t, e, t, 0x4a1bc90c46ae0b45c817fc6108c5d4c32812c241006d7b5cdb58a9e6dc76ff11);
    e, t := Times(W, e, t, e, t, 0x2ac5274a50cb9f0094c668f3ff2170623125310c8f0239680e2bd987ee55714d);
    e, t := Times(W, e, t, e, t, 0x836e733ce3d69e62ab24a8bf749fa01ab19f7710468522aa0e45ac1069cfa73);
    e, t := Times(W, e, t, e, t, 0x371bef4f272674dba31ffe405f53390f6e4ce962733abed14d8c7dac76271800);
    e, t := Times(W, e, t, e, t, 0x3c8ac4b532077c64f47b8d41b31a82d58a76e51e6ab9f3f0f8a5219873faee4b);
    e, t := Times(W, e, t, e, t, 0x6fa81affdceec68c1666eb4d2a5ccc36a6bac2f8df24bb6bc1c695025248da32);
  }

  lemma Ones20()
    ensures IsPower(W, 0xfffff, 0x2b150786dd7ba8a928d0baa80305a89d1f5c933fa834976ceb118d978d3a1f0e)
  {
    hide Prime, IsPower;
    Ones10();
    Ones10Times10();
    var e, t := 0xffc00, 0x62f845335c3279009bb422721ce9f715637d0740ea6c5aeb5cc0ae091cdfcb7a;
    e, t := Times(W, e, t, 0x3ff, 0x64c36e53309338a1d7d885f257f57adfb1bb487886ca2a64094b95c0f96b7878,
        0x4de911973a49d4d27649ac93072f2d8cde7f2a734bc55bc75a545577056b226a);
  }

  lemma Ones20Times20()
    ensures IsPower(W, 0xfffff00000, 0x6d3b8a8a8ae46eb9330fe7d8e9f7e4d4cb7e9fbf8d5995acc5d683efd90a7f4)
  {
    hide Prime, IsPower;
    Ones20();
    var e, t := 0xfffff, 0x2b150786dd7ba8a928d0baa80305a89d1f5c933fa834976ceb118d978d3a1f0e;
    e, t := Times(W, e, t, e, t, 0xe80248315811037bf86be698ee21ba47a69c37507c5ef6001b7fce4d917a2e1);
    e, t := Times(W, e, t, e, t, 0x1691d01674b184fa23aa63374b994abe691cb81a996fc8bc02c9ce11008b6fc);
    e, t := Times(W, e, t, e, t, 0x79f428ece40bb9667e27a65523a0d18531c871f8480367f5a7193a09cdf553cc);
    e, t := Times(W, e, t, e, t, 0xcead395e8631474a66ca06185da032760f7513bbb272aa9e1e4e960d74afdc);
    e, t := Times(W, e, t, e, t, 0xe1a544e794353c806de36dcf8608b65c86b7f5429e75d9b8d7b8a532a204c2c);
    e, t := Times(W, e, t, e, t, 0x1e54a3c77cf96b849856498aba5908769333d8c51a58d387a6a499ce6c4ba1a);
    e, t := Times(W, e, t, e, t, 0x5f8104687497781996d1a79dc4e481140cbac8bc05d2221e27d6a81fa561f9);
    e, t := Times(W, e, t, e, t, 0xdec79398faa31155a94b07e41a4ff78f8406ba3fc8acb83221661db3b0f9325);
    e, t := Times(W, e, t, e, t, 0xc4b4d85c4a86db66734eff0e9b2c8af42d97c2a6b25c544b29edca423f5fcd8);
    e, t := Times(W, e, t, e, t, 0x59e4441ca075f3f5a13f5ea0f187c3a4d1d370da5b6c2afd94638860743989c);
    e, t := Times(W, e, t, e, t, 0x331aa7e00f4b379b09180e6054218287aa44a067dc44107581f10cbc064fc6a7);
    e, t := Times(W, e, t, e, t, 0xb32d6a325c346ab670fcf5e59f3e377ab270a7d60d2dca9d65dfc961ebf3fcd);
    e, t := Times(W, e, t, e, t, 0x8d8357e0d38427ed8f006bcd158bedc298c7771df17f5701c9bbc90136a05ed);
    e, t := Times(W, e, t, e, t, 0x4e3559e0d20c4d3f660e51344bcc5577bab26016f509acf8fd71fe283f2b6f32);
    e, t := Times(W, e, t, e, t, 0xd5aca7d38546952b54cd5b3ba5e6a9e8bea61c8ef91cdd24ce444c12961fcc0);
    e, t := Times(W, e, t, e, t, 0x9cd7cd24e426f456a162b3c65fad9330d0430fa7981ab1b08c36e5a06094439);
    e, t := Times(W, e, t, e, t, 0x58cef87d5c97432e617cb19283e4988e8bd5b5b631ad9a6d25603b080a25126);
    e, t := Times(W, e, t, e, t, 0x117d96a4a8a65188c82204668833015e18b410dad47d180f2b45ba9c7a320261);
    e, t := Times(W, e, t, e, t, 0x2aae19b2baa17a63809d3af740a14fc0023fb7ab4c85233d7b6e9d08496617ef);
    e, t := Times(W, e, t, e, t, 0x4570e43296859b2ccde922f235330230f99cbf115cd3291d088af91419cf4f69);
  }

  lemma Ones40()
    ensures IsPower(W, 0xffffffffff, 0xa1b0975a49b4d79c84415bb332cb76057c753b933522b0c6ee7936618962db3)
  {
    hide Prime, IsPower;
    Ones20();
    Ones20Times20();
    var e, t := 0xfffff00000, 0x6d3b8a8a8ae46eb9330fe7d8e9f7e4d4cb7e9fbf8d5995acc5d683efd90a7f4;
    e, t := Times(W, e, t, 0xfffff, 0x2b150786dd7ba8a928d0baa80305a89d1f5c933fa834976ceb118d978d3a1f0e,
        0x24c3f2bb9e4e77a71cf31e66e9267f7a0ceb1e716e2a7bfa52b3ee5b2cadd99);
  }

  lemma Ones40Times10()
    ensures IsPower(W, 0x3fffffffffc00, 0x3a4cf4f3543dc259e50f379d9bdc4f69535251ce6b2a65e9237c4defb3ed024)
  {
    hide Prime, IsPower;
    Ones40();
    var e, t := 0xffffffffff, 0xa1b0975a49b4d79c84415bb332cb76057c753b933522b0c6ee7936618962db3;
    e, t := Times(W, e, t, e, t, 0xcc3f30600cace54d2895dffd8316545a9ab37668422b5ac86ca5baea5dab28);
    e, t := Times(W, e, t, e, t, 0x58a4595913d4edf41908ad1c67d6475dfa76a9a80ff6960cea37bd3fdfe0cfb1);
    e, t := Times(W, e, t, e, t, 0x11a803a3851f1dc1c77abde5da92bd64367e1a28668facd482a1f2b6b9819);
    e, t := Times(W, e, t, e, t, 0x5a0ba3f02bb3c36c052fdeb1d5a80bfc527db02bd7542bea95a80d5f92bdc3e6);
    e, t := Times(W, e, t, e, t, 0x12ad73b48b179b77a9526d6b19bc3b1691a39c231c04fada4a4a6c4d67980e99);
    e, t := Times(W, e, t, e, t, 0x563e3e13325c9f08b2f6a3ec70e68b47224ea80309a926cc8e5367090633af7b);
    e, t := Times(W, e, t, e, t, 0x29a8651105a475e1185fc2f3afb532377214cf0a50b3b2797001b8670bfe5bb1);
    e, t := Times(W, e, t, e, t, 0xbcf2a45ff5e226584ab678de99daddbe27447299a2e533e9349e3dd3cad7c15);
    e, t := Times(W, e, t, e, t, 0x3dabb3b590fc52a4d270ae2d9b0e688111851d91f1fd4c34ed6d8fdd08ccfb71);
    e, t := Times(W, e, t, e, t, 0x2913c6fca45aeee872e71be93ec957709316a8346b0698cb344e22d9cd40c31c);
  }

  lemma Ones50()
    ensures IsPower(W, 0x3ffffffffffff, 0x5c3e5d27f7a3fce4bc86788c45d63a5e030954872a4de664ca0b97b2150167a2)
  {
    hide Prime, IsPower;
    Ones10();
    Ones40Times10();
    var e, t := 0x3fffffffffc00, 0x3a4cf4f3543dc259e50f379d9bdc4f69535251ce6b2a65e9237c4defb3ed024;
    e, t := Times(W, e, t, 0x3ff, 0x64c36e53309338a1d7d885f257f57adfb1bb487886ca2a64094b95c0f96b7878,
        0x2de522db4b0a7221f44878cfc593936d483a5630802402ed38a085a416b1a76);
  }

  lemma Ones50Times20()
    ensures IsPower(W, 0x3ffffffffffff00000, 0x2e587c48f6b536f4937787f0eb9c9418a9bc9db1dc75f96dc6206ce716217a3)
  {
    hide Prime, IsPower;
    Ones50();
    var e, t := 0x3ffffffffffff, 0x5c3e5d27f7a3fce4bc86788c45d63a5e030954872a4de664ca0b97b2150167a2;
    e, t := Times(W, e, t, e, t, 0x4279c44bf67fc2badf1e22ff873245301cf6853448cddc0481d910a2e9c7f803);
    e, t := Times(W, e, t, e, t, 0x12f8d2c67183f183e7c3f2b9fd81fc24bbc8918e32557f12f3d19be668b864cd);
    e, t := Times(W, e, t, e, t, 0xaef74ff8b9e28246bcca3c69f4ce019cb1f77f135b0de235d9c2bd66fa0141d);
    e, t := Times(W, e, t, e, t, 0x6cc8ad93a63ae307851996f1a464c13560e5e124b0b8b7ddea7f93a0ae92ee8a);
    e, t := Times(W, e, t, e, t, 0x4b7f1780788c3e79a78f2edc68690e1282d9760aa7862f0ac55b04cb245adfc);
    e, t := Times(W, e, t, e, t, 0x106e5639702d50099710a9bcb5aceb5123f7e2f76805c130cd9c50ec46f97799);
    e, t := Times(W, e, t, e, t, 0x1192926781c11e719e26466e97f7ca9e5072889e8420eb6aebabf6d423196559);
    e, t := Times(W, e, t, e, t, 0x8648cce2c01b63fa70a3f9fbbb7fc149200a316a0877b0e2856472a6e301869);
    e, t := Times(W, e, t, e, t, 0x6a84e1afe63a0dac1dcdd93faf467ebcc70836377ca9f05b299481ccb378dd8f);
    e, t := Times(W, e, t, e, t, 0x4d0b4f0020c56e9529bc99ab1641fb0be3e3572612ed173c742e8ce7affdf97);
    e, t := Times(W, e, t, e, t, 0x206fe6642a690ac82c914ca778ec749acfffad6e0a35122ee0254e89c8f589de);
    e, t := Times(W, e, t, e, t, 0x17d42469368ee4605a0d09ee5175e2a4c8e07c511382100113f455b3113a78);
    e, t := Times(W, e, t, e, t, 0x5abd923b99817a4a125a05a83b700385a1262b4d8fdc6016739725ee606c1ad8);
    e, t := Times(W, e, t, e, t, 0x2b1a75c7e1d25898b1cf77e9e8abd8442b9f1ab113ed872924e7c4466b0);
    e, t := Times(W, e, t, e, t, 0x10a2d65f9b9b4bc1932e53e326aebc8078b4e2d9750b7808568dcf15465a2e9a);
    e, t := Times(W, e, t, e, t, 0x20b130de66769160037f762168fed3742661707d817c962c090e0c37662dacf8);
    e, t := Times(W, e, t, e, t, 0x38d64915c43827cf6bd06b64ec1613360663c6e43878454be86c8e34a04a13f8);
    e, t := Times(W, e, t, e, t, 0x6241080b52982513cfc9b0a219d2ab000d4d42099f87d0ed72c9e96365eaef3b);
    e, t := Times(W, e, t, e, t, 0xcc527ecccbc97133681b0b05ba17a87147da04e7d172e22ccdce6d67b837d3);
    e, t := Times(W, e, t, e, t, 0x6174b6b86800bcea2474d81ee087b38da2c0c7618653fa42c73bf1b2a3b73125);
  }

  lemma Ones50Times40()
    ensures IsPower(W, 0x3ffffffffffff0000000000, 0x259f9748049934908cbe7815e00e64f5c79621a9b301a6ef898904d6f48b119d)
  {
    hide Prime, IsPower;
    Ones50Times20();
    var e, t := 0x3ffffffffffff00000, 0x2e587c48f6b536f4937787f0eb9c9418a9bc9db1dc75f96dc6206ce716217a3;
    e, t := Times(W, e, t, e, t, 0x10c7d67fce530041dc21eab72c94e998064a1289c6561749e4df297d491c0d);
    e, t := Times(W, e, t, e, t, 0x1b2dc8f923f220e764aceebe2996cd81450ccf294ffc01921b8aeadb6f2cb4);
    e, t := Times(W, e, t, e, t, 0xa3d5139552b0c50319609cee5ac59392b26711d148c8f10cc6c7e8e663a446);
    e, t := Times(W, e, t, e, t, 0x13b69844703dfc446a7d608681f16b3e185ab3d2a0d842be364c5cb1873334f4);
    e, t := Times(W, e, t, e, t, 0x1811eb90598db0a2e993a534cee047fb84ffe84e83cc7686935e61c1ea878059);
    e, t := Times(W, e, t, e, t, 0x7fd19aaf4b10a5dd4c536add10b4190a86e94ea4b03c30d5dd2b6f3af08118c);
    e, t := Times(W, e, t, e, t, 0x764b5a485ab31863b80e17ba17709ec73d76a416849bd114da564e1eee63f859);
    e, t := Times(W, e, t, e, t, 0xf37e308b038e7dc6c8fc5b3446ff852247d7271efbcd40f2131221239bf15b9);
    e, t := Times(W, e, t, e, t, 0x273cc168fa425620ef8f10955b99e2235a7c98f21d535d041069c8081219df64);
    e, t := Times(W, e, t, e, t, 0x63400126421f64434d2cb67d4f3fbf2d3496b0c74f267eef63bc07e872619c95);
    e, t := Times(W, e, t, e, t, 0x7ed43b3a6e61d03f7a001c7a0c8b6436ee0dd6e9412bea7fd7a66fd8591c36a3);
    e, t := Times(W, e, t, e, t, 0xd747482b0b9d80f82c6695cba1f1cbf49f8a6b9482f55f5b6cca85a592aefe);
    e, t := Times(W, e, t, e, t, 0xda68946cd759d91f076d6cc47cb690d35aea476b1f06cb0cd050cba79deccf);
    e, t := Times(W, e, t, e, t, 0x4883496fa2fed3218c77a0423f59d96cb3afec8df28655be237dfed747bfb0f2);
    e, t := Times(W, e, t, e, t, 0xb643179d33711788c725fa99ce58180446e12ef0c63bb1b493a719bc25fe28c);
    e, t := Times(W, e, t, e, t, 0x21d29ef63f816f6ed64c358c7169ac2dc7ee66d4ff19873e1bcb0b762a433e8f);
    e, t := Times(W, e, t, e, t, 0x1c47412c31d8493269c418cb9c9f55f3317a04d49c8b9b7340e3dbd8b6f10b9);
    e, t := Times(W, e, t, e, t, 0x690f1873d0aa7e3c67858d9adc098f4f16dcd980635861763cb9f73e80ff732a);
    e, t := Times(W, e, t, e, t, 0x1b3f60a056774825a0008dcc66a380375773926fc1b2f62ed616e508608d052);
    e, t := Times(W, e, t, e, t, 0x8dc6d2e6d6d5ccf7a69868f7f7864410cf8697f93972da61c0470ad13e9f743);
  }

  lemma Ones50Times50()
    ensures IsPower(W, 0xffffffffffffc000000000000, 0x3e699f01c75a5412a894c4f9c75042627e45f5c0bcc6a9bf25306a4acc33d380)
  {
    hide Prime, IsPower;
    Ones50Times40();
    var e, t := 0x3ffffffffffff0000000000, 0x259f9748049934908cbe7815e00e64f5c79621a9b301a6ef898904d6f48b119d;
    e, t := Times(W, e, t, e, t, 0xb0f0a702c601260cd063ff77d6e1fcf6b925df1d396fd7a08d4d005394364e5);
    e, t := Times(W, e, t, e, t, 0x460c36953911995328d35b4eabd7f66075a79c2071f16f88d42e99ba9458ee0e);
    e, t := Times(W, e, t, e, t, 0x581f11321cc298d7b350fe3f8a702e062b295d609dc94cab5a4794b61d1e4d81);
    e, t := Times(W, e, t, e, t, 0x1b1ca9ca545e83a9b0de545d0bdd38b45c879c7c78d1e28a14a2bfe0f6bea935);
    e, t := Times(W, e, t, e, t, 0x4e99d7737b6a0aae98d1e03a16c88f54dcefa27fa3a5ee452c547d942c1d92a7);
    e, t := Times(W, e, t, e, t, 0x47abea1f072f81c98d98a76fc62d7b7a0a3961c37eeea68c5f2a9f1ba95904c1);
    e, t := Times(W, e, t, e, t, 0x29978c33a6c248afc635a63fe6d8691b05b31da2422afb6be4fde5484f52bd1b);
    e, t := Times(W, e, t, e, t, 0xc69fbe4fe3c1dc529f3a50b9a9c9f0630e6467e57f1837f105932b4633e786f);
    e, t := Times(W, e, t, e, t, 0x2362863bd971d701b73a672f641b2ffb26c3447c4feea59a14f4a92abdbc041a);
    e, t := Times(W, e, t, e, t, 0x60efc238d9b5beac5e518e052eaf18901750dc1c0f33ec01e406ad42b37b6bd4);
  }

  lemma Ones100()
    ensures IsPower(W, 0xfffffffffffffffffffffffff, 0x760092a1cb5bbb1640b823e5fa3d6f035e52841e562c35ac1c9ce5e6af9a45cb)
  {
    hide Prime, IsPower;
    Ones50();
    Ones50Times50();
    var e, t := 0xffffffffffffc000000000000, 0x3e699f01c75a5412a894c4f9c75042627e45f5c0bcc6a9bf25306a4acc33d380;
    e, t := Times(W, e, t, 0x3ffffffffffff, 0x5c3e5d27f7a3fce4bc86788c45d63a5e030954872a4de664ca0b97b2150167a2,
        0x2cfa52de869b0035e4df5b9ae17a4fd4a2eb8fbfd2f1211ea06a2784cdf55d69);
  }

  lemma Ones100Times20()
    ensures IsPower(W, 0xfffffffffffffffffffffffff00000,
        0x95edfcbacc19fcaa65219f74cbdf1b78c20e971c0bb858ac4f342c1393bbdd5)
  {
    hide Prime, IsPower;
    Ones100();
    var e, t := 0xfffffffffffffffffffffffff, 0x760092a1cb5bbb1640b823e5fa3d6f035e52841e562c35ac1c9ce5e6af9a45cb;
    e, t := Times(W, e, t, e, t, 0x6cc90e5af6eb055d1ff620f690df56bcc7573dbcbacd2eafff06958e67421398);
    e, t := Times(W, e, t, e, t, 0x2f24df1bb9fb33de3f8f3518b18249b86642d978d6a5c86d016dd2d6bf57d7e);
    e, t := Times(W, e, t, e, t, 0x216ae2163a34e933a28c12eef17eb3f5be5368f5901e652ef16bf8d7aebe2cf8);
    e, t := Times(W, e, t, e, t, 0x307ec181ddbc5b2d794ca0fe16ded5897dcce7c1b5cd04dd2a93ef0bff57d5c2);
    e, t := Times(W, e, t, e, t, 0x17c99cdc90c4e68d980f0e23dd4d8d65e1c07281c2a870670ea93f8af0ed9126);
    e, t := Times(W, e, t, e, t, 0x59f7583f228304dd1a7449de669c59933ea114f9306526eed2cbfb074a6b355f);
    e, t := Times(W, e, t, e, t, 0x1c3a7043f9fac3eac9f342e43d19259610b2e4831d03411fc9b070e58f1421e);
    e, t := Times(W, e, t, e, t, 0x61969192cdba56075153446d80170bf46f010b25c4c132d6e5c2e953af6a7f7c);
    e, t := Times(W, e, t, e, t, 0x176f6bee9b3385a630e15a842c128a4b94344bcb8117b7d98595c50c4d62e17f);
    e, t := Times(W, e, t, e, t, 0x3595973e47952f17429fdcc847cd27f568faf1fa964cddc129c088893f7935);
    e, t := Times(W, e, t, e, t, 0x7a5889bb8e4aac50f85570dff1ed5463bd16da67e05025043f9931b66e1d3442);
    e, t := Times(W, e, t, e, t, 0xa20abb95142de9aefb3ded731a303f9136564607aa4c01005f1ddc3d39f1428);
    e, t := Times(W, e, t, e, t, 0xf0bd46813bf9169da004a6659b04cf0ce0aa43623e77d40c98a09cd2bd8b5a);
    e, t := Times(W, e, t, e, t, 0x6ec81484630a98716cc9d69895314fe12b582674ea3ed067c4eb3483c14553a8);
    e, t := Times(W, e, t, e, t, 0x1b18e4fe90c9fe79815ea699c4ef6dd03506fb498237e1c2a5eb700f383124ab);
    e, t := Times(W, e, t, e, t, 0x4fd3224e2104ee0b699ed07d636b8b170c18b3b22680cea7a435689b4b415dd9);
    e, t := Times(W, e, t, e, t, 0xea57368750b19188e62aec108fed07f295dfe6fe5a338233e280fba73d48c5e);
    e, t := Times(W, e, t, e, t, 0x62fc333a93d8f873ad55202e34be2610b46b79f3eadf6863c83019ed78c1eb8e);
    e, t := Times(W, e, t, e, t, 0x6d7e1d80327075bc498e6119af10fd6f4aa7c8d54bf626522e0ebe939e9e5714);
    e, t := Times(W, e, t, e, t, 0x2f66b978ecadb029e59805326919bb01cce928547d5d8686f6b4e01994f86777);
  }

  lemma Ones100Times40()
    ensures IsPower(W, 0xfffffffffffffffffffffffff0000000000,
        0x3b58737c35274bbdc8d091c6454b101ac798f50410c25a9da21d5380ee96c0d7)
  {
    hide Prime, IsPower;
    Ones100Times20();
    var e, t := 0xfffffffffffffffffffffffff00000, 0x95edfcbacc19fcaa65219f74cbdf1b78c20e971c0bb858ac4f342c1393bbdd5;
    e, t := Times(W, e, t, e, t, 0xaf9dcadeb9e8e4b91e48dfce7c642ec5c4153d0f47aabc70974f02c035353c);
    e, t := Times(W, e, t, e, t, 0x70641808eb7802e8c830c8886732281d52a7369d4200904e3f43804edfef8ceb);
    e, t := Times(W, e, t, e, t, 0x1feffb65a20b4bc56f25534633a25d56c62c8f698e95bb8eb39f6eaf9aece353);
    e, t := Times(W, e, t, e, t, 0x1caaba96cfaa7f7d866de6b7fc8d6d24c4487aeeaf05e3a7094a1c105ad21d32);
    e, t := Times(W, e, t, e, t, 0x162ec776a80a8de8f2db46f95c2fb32ff81d1b084820da82b5ee109110b5f7dd);
    e, t := Times(W, e, t, e, t, 0xac68318bf2cd252a7610fbf017c25d804c05476b0115ba605cca164ad46f8a2);
    e, t := Times(W, e, t, e, t, 0x197a518cf2e1cdfd6dfffcea223efd612879b500204221f62b39dc0eb2e4f6a0);
    e, t := Times(W, e, t, e, t, 0x6d46f251e654ff3fa241d10be036278a5a9cc46eb79fc6c7d45ed388879afa22);
    e, t := Times(W, e, t, e, t, 0x84a374cdffd11fea9902f1720fbb9f58e4852f119b5290cbf762bb86d27c355);
    e, t := Times(W, e, t, e, t, 0x697d9157cdf84fb6dddfc3a0ceec0b79d98fac3a95292fe189e382ffb4967595);
    e, t := Times(W, e, t, e, t, 0x1a96b5414decdef92c0a8b2ee67c4f313c987ee395a33840cf4f5f180b601d5d);
    e, t := Times(W, e, t, e, t, 0x47405d3c51457a86e942cd01ac196536ff58985f98695ad7a7f46c23618cbd0d);
    e, t := Times(W, e, t, e, t, 0x1753bd1b6cf8f7714c874ae37d35f9abc7deef52e2b85af6580a650da077def);
    e, t := Times(W, e, t, e, t, 0x36becd88a3babc1322d7c5db3d2b76a26189ee6d416bb1bdaeb5b658028b4097);
    e, t := Times(W, e, t, e, t, 0x1371b5e8bf2fc6249903f5f429eaffba4f63dd35dd0181824014e6248119044b);
    e, t := Times(W, e, t, e, t, 0x4f5f9006e54a3ef070afdef3d901fdaa336088d55d239591ee17c72785ad2a1);
    e, t := Times(W, e, t, e, t, 0x68e947390d198066b37f27de2f12a37133b2de093d46c0f15da7560ee930d429);
    e, t := Times(W, e, t, e, t, 0xf09e0d78edea7d1893786eef43520f4215f6023a229f38f0c93dec55dd0a2b2);
    e, t := Times(W, e, t, e, t, 0x23e0c3d4a9ac196741ced7dc639d5aa97c84628b3faee057c04667d4cecdc2f3);
    e, t := Times(W, e, t, e, t, 0x3592d5b485cfc8e21bbfca50524fe3868fd61cc335602ef98ab1391e5607bda1);
  }

  lemma Ones100Times60()
    ensures IsPower(W, 0xfffffffffffffffffffffffff000000000000000,
        0x42072aac1c136e60052cb6ed979fec33d108dbcb13c11605d69d6af15e72bff)
  {
    hide Prime, IsPower;
    Ones100Times40();
    var e, t := 0xfffffffffffffffffffffffff0000000000,
        0x3b58737c35274bbdc8d091c6454b101ac798f50410c25a9da21d5380ee96c0d7;
    e, t := Times(W, e, t, e, t, 0x1b83c795b3faf7e4c862c080914fc741ab371beccebfa84195c4865e490e7a62);
    e, t := Times(W, e, t, e, t, 0x3ed4932632d7c67aa4c56c8747b58791d98b9f27c684e124c7b2c42f096a399b);
    e, t := Times(W, e, t, e, t, 0x147326dca8c9ca6a4fd52a29992f1dce5a7f9cec39ee460db0b2b86c96c03cd);
    e, t := Times(W, e, t, e, t, 0x4ce7a71aac9aae8e1ff1b060c2ba7f21c00f40d7b6e3b108d11742d7e0da025f);
    e, t := Times(W, e, t, e, t, 0x2a39ac227058c22ac6f56d059d6c5e11a9802c4d6e9c9d9c1cc1fe50322eb0a);
    e, t := Times(W, e, t, e, t, 0x2a2e61803f2458e6df67c997d633ce2409e96c0a0b4c50014756702147a8b4ae);
    e, t := Times(W, e, t, e, t, 0x178bfe531c8e38b33e3555edcbf7eb8c26b426028c0e5700f3bddd5b7d5198af);
    e, t := Times(W, e, t, e, t, 0x75840615c6d5ba69015e1ebd05994e90d6a1891b2df0f0c3bb98e6192a0a802b);
    e, t := Times(W, e, t, e, t, 0x7f7abbb362df50982810998b1a5e97b46fd16bfdcf83c201e8c75d52ed606edd);
    e, t := Times(W, e, t, e, t, 0x1540c3177c68acb79d35d2ea50f9a4653c15f0b30cd62296fc34db3601b3d531);
    e, t := Times(W, e, t, e, t, 0x18f06385254ddc3e46fd53d92063fa79c1396b5ae9076d2d5652f1ce030c44a7);
    e, t := Times(W, e, t, e, t, 0x68fa401bf7f2d5e562ebcf5c1b70f20e3df056e8fddb2ffe9c7fd3cbbd21d157);
    e, t := Times(W, e, t, e, t, 0x69d44af14cb1cea33b6c3455214b5f1e28e3aca9c1680b895fb060466056490a);
    e, t := Times(W, e, t, e, t, 0x4d63b3e8a419076578707335111ba25172691f34d8f7906f5935e37568ef50bb);
    e, t := Times(W, e, t, e, t, 0x1700a6bbdf6c1595a6f1c5a563a805a6837b40518b9038174fe3f7b4d780c2);
    e, t := Times(W, e, t, e, t, 0xa04c4cb33bf846bad6805c4eca0e39c061df4ec2ae8ba3598bc8117b7169d9f);
    e, t := Times(W, e, t, e, t, 0x62e7591af97bb03def4f35f4563c98cf1b23ed2b185e0eaa23f234595b954fd9);
    e, t := Times(W, e, t, e, t, 0x5d1c7b4941b086d0d2211bc34f48504322089724e669efb295dea04f61b83628);
    e, t := Times(W, e, t, e, t, 0xab7994f843b50d7723c83783507801f9f0509f6fcce3dbef2160d127248a8f3);
    e, t := Times(W, e, t, e, t, 0xafee82a99d0a50ac5b1a1ff7af68c3360f020ae12c3909ad733bbeec8ccc119);
  }

  lemma Ones100Times80()
    ensures IsPower(W, 0xfffffffffffffffffffffffff00000000000000000000,
        0x4dbd307193c0539ae99df9c82313d5c2b9ffd562e8bfb6ecc92104799bf7c5e3)
  {
    hide Prime, IsPower;
    Ones100Times60();
    var e, t := 0xfffffffffffffffffffffffff000000000000000,
        0x42072aac1c136e60052cb6ed979fec33d108dbcb13c11605d69d6af15e72bff;
    e, t := Times(W, e, t, e, t, 0x220f64683600f5cb52a6d6396c837556949815c97ff0a6f482cc703e4cf197);
    e, t := Times(W, e, t, e, t, 0xfdbf1edc80061e8eb8f3c04a283755d399310c6b5ec2f135d41821056c1f72a);
    e, t := Times(W, e, t, e, t, 0xa3fb39fa50fb57e5b08076e56f7b99ab1a0089505138035947c242047b2f6b9);
    e, t := Times(W, e, t, e, t, 0x1a6511d0dcd4f53131c3ca20dc2b189f3239ccc2a6b9cce65520b316e2d88276);
    e, t := Times(W, e, t, e, t, 0x2cffd8338a11104d4b52fd1d18a8733044f94c0d60c7fd9164c8e865df5e2e0);
    e, t := Times(W, e, t, e, t, 0x118d5a684e6d7ac4d0cc837486290f2c9f11ce8b3314735761bb2b6123d42de2);
    e, t := Times(W, e, t, e, t, 0x1f0e1b4b8d4c5995bfb4fc342688fe074767e2b5fae6248f4d0f21d10159c9);
    e, t := Times(W, e, t, e, t, 0x577624bd4df1f7044a40126a57a6436c5c111c90fbe288bdb1b62ab9b7bda83d);
    e, t := Times(W, e, t, e, t, 0x7bd25d4211f1cc492212e5aaad641e41298185b3c69aedc6d5cbb611a2499d09);
    e, t := Times(W, e, t, e, t, 0x434e25edb0e2697cbf580e6f894c42946099884a59d3084dcb7cff1ea7a6cee8);
    e, t := Times(W, e, t, e, t, 0x27bd07e88740c5fb71b40cb9a4505966d1a76acb5af7881a5a3bfb3df81a9fa5);
    e, t := Times(W, e, t, e, t, 0x19d15f17527dfe4f421034e04e38120de2fdb18c66315d3dfb182e366bcfdb14);
    e, t := Times(W, e, t, e, t, 0x29470d582790e75d9554bd7487c5e1722e96e20c677e112436b356fd3a7f5eb7);
    e, t := Times(W, e, t, e, t, 0x197da5264943beeae0c9494ec96b02fe26eb57ab594960b0679ffd198072e20e);
    e, t := Times(W, e, t, e, t, 0x105742ad66dbc84e08d6db68259317d4e426d3f2f118027e018f65f3f5604b40);
    e, t := Times(W, e, t, e, t, 0x102ed9281c7751274d0668a73628a0aff6c318725432f0de5f703c2be8b67a2e);
    e, t := Times(W, e, t, e, t, 0x3ba3d9f0611ac0f3cd555614a03877ebaa927c030b0f96ff8dffd70d953a2f5);
    e, t := Times(W, e, t, e, t, 0x1334ac1070e00041381c775dafda1851e636806ed6c0189725b4852dfa04ec);
    e, t := Times(W, e, t, e, t, 0x4e09fc8bc33053455d4896bd2a3727ff4e612ed2cc0d7bcdbe2ac56c23709797);
    e, t := Times(W, e, t, e, t, 0x4f10fb18f3e20cbf2dc9a6010a790da1bf421395af1ed4dd9de2a66329819405);
  }

  lemma Ones100Times100()
    ensures IsPower(W, 0xfffffffffffffffffffffffff0000000000000000000000000,
        0x68ba0d1f91353cb6b8e78163e14a0ec0dc3cbae07617cae5b5af60f2d06f6641)
  {
    hide Prime, IsPower;
    Ones100Times80();
    var e, t := 0xfffffffffffffffffffffffff00000000000000000000,
        0x4dbd307193c0539ae99df9c82313d5c2b9ffd562e8bfb6ecc92104799bf7c5e3;
    e, t := Times(W, e, t, e, t, 0x2f36b5e9c7814c250f60a4c83b6de9881199d171624d971ea2b0b78e3b7b343f);
    e, t := Times(W, e, t, e, t, 0x514c4a52d6668e9412f66487e0dd1168ca1dd076f9151ee42057b61d391d4);
    e, t := Times(W, e, t, e, t, 0x693fbb50e60e630a17cbe7190004508ba5c85dc5c7a1dd4703fec7cb2293761);
    e, t := Times(W, e, t, e, t, 0x3dd7b99ef125e1fa2c791cebe17d296a14730586a2e190656283dc0373ac5fd5);
    e, t := Times(W, e, t, e, t, 0x3711d695ba463f42c12ac4723650e16b14651be9c0cd5797206c6082d90bc260);
    e, t := Times(W, e, t, e, t, 0x17d58c277bdd55eb644fdda6f7910c80bb908d60a369659c40b583eceb071532);
    e, t := Times(W, e, t, e, t, 0x6d3589336f53f3dc5a6314907eb6e26504f649db3c69a08c5a1fcd3116c83915);
    e, t := Times(W, e, t, e, t, 0x9f7fbdf322a6e310e00153c9b281012161ca0eb95e95d022118fc7940111624);
    e, t := Times(W, e, t, e, t, 0x213ae99c3e6ca99282cb6bf707a9e47f58f5e091ff0bd0caed6d6783d6d605);
    e, t := Times(W, e, t, e, t, 0x20a961155fe32c36b3b5cdc1632a7676061490769f3c652f300d38019e00a9e);
    e, t := Times(W, e, t, e, t, 0x36ba7af5361052566e4ed6107e9d4342ba21e116b2699abd50dfd3a9678b41f9);
    e, t := Times(W, e, t, e, t, 0x35e72af5c91fa12dcc20a307ba7123aca56fd7499cd6abdfdfc7e4b5f0c75df);
    e, t := Times(W, e, t, e, t, 0x579f35d12e7ca1532bda35dbf05e91eb038fa8b0f220dcaf3aad53430e23c377);
    e, t := Times(W, e, t, e, t, 0x302bf540caf507c078da27a44f2512012683aa692e7ccd5b7e7f5c31bd5d3480);
    e, t := Times(W, e, t, e, t, 0x59094192aa0a025c95742f72b200bd34ff8679dcbcbab140fa58d524b3827c8b);
    e, t := Times(W, e, t, e, t, 0x21ea6bed758731d0412f2741a58d9b2819a323fd0faa1ebb43c66f9630ea3a9);
    e, t := Times(W, e, t, e, t, 0x2fc4a8feebd1b32d2283f6b27e8a7b608524c1ec11f9493b1f1f8c48b99ca32e);
    e, t := Times(W, e, t, e, t, 0x73994fe770fbced660321244ee821212f416c0bfcceee018c0714c4951650);
    e, t := Times(W, e, t, e, t, 0x1474d7bce48b19f8cc31a0a27a411438380f6abe9ab3c3be2d6e5b477d0ce);
    e, t := Times(W, e, t, e, t, 0x42de087410764b4f12ebdfd83f5eabf3d305ece5144b8bb1f30a58d56fff4978);
  }

  lemma Ones200()
    ensures IsPower(W, 0xffffffffffffffffffffffffffffffffffffffffffffffffff,
        0x147e5269eccf03b77ad241e04e376fe14fd731b3ee73d35d405715bdc6bcfe19)
  {
    hide Prime, IsPower;
    Ones100();
    Ones100Times100();
    var e, t := 0xfffffffffffffffffffffffff0000000000000000000000000,
        0x68ba0d1f91353cb6b8e78163e14a0ec0dc3cbae07617cae5b5af60f2d06f6641;
    e, t := Times(W, e, t, 0xfffffffffffffffffffffffff,
        0x760092a1cb5bbb1640b823e5fa3d6f035e52841e562c35ac1c9ce5e6af9a45cb,
        0x608bfc11b13bb5753981ed1a14a20bb902a970e62f7cf4d9397ef55a57e18bfa);
  }

  lemma Ones200Times20()
    ensures IsPower(W, 0xffffffffffffffffffffffffffffffffffffffffffffffffff00000,
        0x3b222c1f4d92764ab485f10bad0bb8919af1cd8478d2bfa8aba2d6f148a9d15e)
  {
    hide Prime, IsPower;
    Ones200();
    var e, t := 0xffffffffffffffffffffffffffffffffffffffffffffffffff,
        0x147e5269eccf03b77ad241e04e376fe14fd731b3ee73d35d405715bdc6bcfe19;
    e, t := Times(W, e, t, e, t, 0x347f66b8f9af7ca1e1d5d6d49dafc0dbae31aff9b69a1c65e654c4333c03c74);
    e, t := Times(W, e, t, e, t, 0x28e31e471c5fd1ab375d919f8671e97c55c932fae9280f507d3066cae06a90b7);
    e, t := Times(W, e, t, e, t, 0x6be10c12b6988d8024422bacdb51f64e00be439152af3cda4a3adebe0021f0b2);
    e, t := Times(W, e, t, e, t, 0x121a0f53671357d7fd8eeae4caca9a606d83a5e40b45477dbc281860a7e0e6cb);
    e, t := Times(W, e, t, e, t, 0x1c85cd0ac18e0e2f8b364a6ed3db088d0b4212350a5bd18e2752409504fc0c9e);
    e, t := Times(W, e, t, e, t, 0x2118ee6612c592c74216a515c13756787f735f282a76c8721ef6c96e1ffb7b98);
    e, t := Times(W, e, t, e, t, 0x241e9e73d139147f1f13a7fe0fc293ddd134a0f5b11165d16725f26101f60c74);
    e, t := Times(W, e, t, e, t, 0x240c45634a8f115841b2892e1331fb8b81fa00aea7e193f9e35cdf736b708ae8);
    e, t := Times(W, e, t, e, t, 0x488f353d11727549904228b600965fe12a139926e5d63ed373e82b5a9f1bcc35);
    e, t := Times(W, e, t, e, t, 0x361070c870fe876c5fe59528c2108c0e8a23708a873c2d9dc02d387e9ed394e8);
    e, t := Times(W, e, t, e, t, 0x3f872a90f6ba67ab23fb33db62b08d9c0905e15bdee93fb831f778c24013631c);
    e, t := Times(W, e, t, e, t, 0x393ff43c36873c9fec49a3d113630929094e7e9858bd22a08a0a19077266fbc1);
    e, t := Times(W, e, t, e, t, 0x1fbf0d595abb49a78f8e79850da9f3a6dec343ddfc1964da641b6c752c261d);
    e, t := Times(W, e, t, e, t, 0x313ccc8b32d32e0bc7511a70ff8efa7bf7df6b512bea1a9be837636bffe8fd31);
    e, t := Times(W, e, t, e, t, 0x7c792816ca710e94bdfd0fa9e6a07f7decf0eb32828409607d5eb4a88029bc);
    e, t := Times(W, e, t, e, t, 0xcd511d2c4e2c40e8dace1bdff3c897e93d93950a31f76f69e3e4f4288842430);
    e, t := Times(W, e, t, e, t, 0x6a76d83eedcc41bc3afeb6df7451049af91d9fc273a215c3813fb309510e410);
    e, t := Times(W, e, t, e, t, 0x223b31696d803a4aab5ac4496e2397d11d81bdd4df23eb3ae0d52450496b3dac);
    e, t := Times(W, e, t, e, t, 0x36dcd0b096d5337466296b0068e8c1f1c3178bf5580c503e8f52a59c8c947c05);
    e, t := Times(W, e, t, e, t, 0x3b6f23231af7c7a219594ac8f958f6cc48073f800b4693bbf8f2efbe2399322a);
  }

  lemma Ones200Times40()
    ensures IsPower(W, 0xffffffffffffffffffffffffffffffffffffffffffffffffff0000000000,
        0x33353c6ee4926d5c90844fefa8cfddab2cfdad87c07adc3e11bea4d44986dd74)
  {
    hide Prime, IsPower;
    Ones200Times20();
    var e, t := 0xffffffffffffffffffffffffffffffffffffffffffffffffff00000,
        0x3b222c1f4d92764ab485f10bad0bb8919af1cd8478d2bfa8aba2d6f148a9d15e;
    e, t := Times(W, e, t, e, t, 0x1b5189cc5b59c7d82962e79281426500c57d166c0d7de4efc918eca552b6b292);
    e, t := Times(W, e, t, e, t, 0x31ad2dd21a61dc68fb7c968e627b4d8550ffa4454039d700d9b917bf7072e44a);
    e, t := Times(W, e, t, e, t, 0x638d90862144982c7c5669e46bdcac35f9c2f405ce0cd39dd8cf75bccd048c9);
    e, t := Times(W, e, t, e, t, 0x6c67ad70a28fd3179f35f9e0ac35afd212cb656dcc5b6a377bde7b34da01374c);
    e, t := Times(W, e, t, e, t, 0x21f6b3c954635cc8ec66f1ca7536c1f4f9c3b1592367df7ea6d0d7158280c056);
    e, t := Times(W, e, t, e, t, 0x155a3b30ded79878702dddecbdc738014192f1e6800358560372f974ee98943d);
    e, t := Times(W, e, t, e, t, 0x30d6702fffeea8032d282cf89cdc46da416d7b5c49088b14153594f225da1ee);
    e, t := Times(W, e, t, e, t, 0x434ef2e69bbdfe277f655c527fe977dcb4c5f47e69f6c5d99f2613990b012619);
    e, t := Times(W, e, t, e, t, 0x2c9704de3b8726dd6aefcf81f482331e49e23355d9858491cb460009d0812a63);
    e, t := Times(W, e, t, e, t, 0x594d5fc32cdd38e15ab9be7d8434aeac56330d59367bf377bfd2a387eb083214);
    e, t := Times(W, e, t, e, t, 0x34cdb397af39ff857a4b9f222c95e5e063baf13e5edced1a5aae71b36c8d34ba);
    e, t := Times(W, e, t, e, t, 0x2cf459fe78af9f317151e5f519008f57785b09578ea819dadd20f11406a97ac);
    e, t := Times(W, e, t, e, t, 0xd9182caca4deacf18fdd1b23b3aa25e88919096b4b52988388e406dc5225a70);
    e, t := Times(W, e, t, e, t, 0x47818a00955643742d0e3552c6d4e5cbb003d707d2f687840afc9948c749d5b);
    e, t := Times(W, e, t, e, t, 0x591188b5b10315e80fa202d171589eedbf9c6f44c452e4eae0ae398805270b3d);
    e, t := Times(W, e, t, e, t, 0x73b875d42a0a6a2a4a620be48e7af42adca7912c3da6bdf6031eba3b6789b857);
    e, t := Times(W, e, t, e, t, 0x40b7270bb2cab069ecb4df965f1754c12249898835be0d54a7a0d15b42dfc30a);
    e, t := Times(W, e, t, e, t, 0x10f1923a395d107b141e89d0bbf75a0c6cbf3445da469ccbd58a626ae4856c0a);
    e, t := Times(W, e, t, e, t, 0x44fbc7b929870bd97885875a81942e5fabeacf8809e630621a0a8cf0062739c);
    e, t := Times(W, e, t, e, t, 0x670f995b10f5055e8f826905129c967e4f829b934c09c6c4c726a127b28d3979);
  }

  lemma Ones200Times50()
    ensures IsPower(W, 0x3fffffffffffffffffffffffffffffffffffffffffffffffffc000000000000,
        0x6251e29a5fec494f2bb35bee8a48dfb6b7d0fa7bc0465bbe7c5fc8aa84cff031)
  {
    hide Prime, IsPower;
    Ones200Times40();
    var e, t := 0xffffffffffffffffffffffffffffffffffffffffffffffffff0000000000,
        0x33353c6ee4926d5c90844fefa8cfddab2cfdad87c07adc3e11bea4d44986dd74;
    e, t := Times(W, e, t, e, t, 0x147c824c86824ec40e2e28f536c876a2dc4fd14783a6d33241926842ab57114a);
    e, t := Times(W, e, t, e, t, 0x13096b63441b3793b0192a07bd63b5522220397f25ee9860f83ec2dcfc96e735);
    e, t := Times(W, e, t, e, t, 0x5c8f3d9881a825f2746ce89e2ef343f112f03c45f0bbe3c6e24e527fbfc820cf);
    e, t := Times(W, e, t, e, t, 0x562f1ea8f4e0672dcf2041810abbf9a46c9465ca7c83df422b775791da6fd78);
    e, t := Times(W, e, t, e, t, 0x27d1be895a50cf9adf2510f2a3137b7150ec7460a436afd804f30495b0602ce0);
    e, t := Times(W, e, t, e, t, 0xfb5658f7d22c7296d8e7af83868e4cbc07fd72e38483bc79dfcc9cb2c7d57);
    e, t := Times(W, e, t, e, t, 0x2225ed7c7b11480ae879631e0364488d451863bcdb1b01f3693199932164725);
    e, t := Times(W, e, t, e, t, 0x54d225f11746d528c8c7db51506a52daf72838e22a38e1a391a57b28fe52018b);
    e, t := Times(W, e, t, e, t, 0x3ff35028f32698ad3ef9123abf0526ce0cfdf4caf52f8c57d4555a99028f612a);
    e, t := Times(W, e, t, e, t, 0x24e3737286f4a09aa60d458126decb48b87c2f72bdc3bcd4162f666186908e90);
  }

  lemma Ones250()
    ensures IsPower(W, 0x3ffffffffffffffffffffffffffffffffffffffffffffffffffffffffffffff,
        0x84320b8b1494edab8748ea764ff049b4fb60411165b0f986f17536bb3228ca8)
  {
    hide Prime, IsPower;
    Ones200Times50();
    Ones50();
    var e, t := 0x3fffffffffffffffffffffffffffffffffffffffffffffffffc000000000000,
        0x6251e29a5fec494f2bb35bee8a48dfb6b7d0fa7bc0465bbe7c5fc8aa84cff031;
    e, t := Times(W, e, t, 0x3ffffffffffff, 0x5c3e5d27f7a3fce4bc86788c45d63a5e030954872a4de664ca0b97b2150167a2,
        0x46dac216e98779acaf7f2c2844e19fcdf3a309dfc9f439b83bc7a506a2249f82);
  }

  /** The exponent (p - 5) / 8 is 2^252 - 3. */
  lemma RootPower()
    ensures IsPower(W, 0xffffffffffffffffffffffffffffffffffffffffffffffffffffffffffffffd,
        0x6538672abefadf7cd50e6b5f6b77950340be0a872606007486f39be49adfe0a)
  {
    hide Prime, IsPower;
    Ones1();
    Ones250();
    var e, t := 0x3ffffffffffffffffffffffffffffffffffffffffffffffffffffffffffffff,
        0x84320b8b1494edab8748ea764ff049b4fb60411165b0f986f17536bb3228ca8;
    e, t := Times(W, e, t, e, t, 0x88874b5fe025bd33c4a4f7e27c35532afb06989ea2cd14f7592015b4f2f1f8);
    e, t := Times(W, e, t, e, t, 0x60f420bb53ee3152175a0fa267a16d93113963cb788459c8506b678278562ba6);
    e, t := Times(W, e, t, 0x1, 0x2837014753370e0caab49cee60ac636b8b9e0e1f938e36d0a7895540b0a05008,
        0x366a5aa915fbcb57ae0421d730b76f721bea1da66742e8a17e9815468feebde);
  }

  /** a * b is congruent to r when it is r plus q times p, for congruent factors. */
  lemma Product(a: int, a': int, b: int, b': int, q: int, r: int)
    requires Cong(a, a', P) && Cong(b, b',
        P) && a' * b' == r + q * 0x7fffffffffffffffffffffffffffffffffffffffffffffffffffffffffffffed
    ensures Cong(a * b, r, P)
  {
    Constants();
    hide Prime;
    CongMul(a, a', b, b', P);
    CongMultiple(r, q, P);
  }

  lemma UAndVValues()
    ensures Cong(CurveU(BASE_Y), U, P) && Cong(CurveV(BASE_Y), V, P)
  {
    hide Prime, EdwardsD;
    Product(BASE_Y, BASE_Y, BASE_Y, BASE_Y, 0x51eb851eb851eb851eb851eb851eb851eb851eb851eb851eb851eb851eb851e0,
        0x51eb851eb851eb851eb851eb851eb851eb851eb851eb851eb851eb851eb851e0);
    DValue();
    Product(D, D, BASE_Y * BASE_Y, 0x51eb851eb851eb851eb851eb851eb851eb851eb851eb851eb851eb851eb851e0,
        0x347d1283f2d7093fb64214c89e62806147f5c92734012e8236fcfe95cef194e3,
        0x4e16ac1d8c70a2d94fdbae6237fc19fae18f62c0cd9ac81bd096982f688b2e79);
    CongAdd(BASE_Y * BASE_Y, 0x51eb851eb851eb851eb851eb851eb851eb851eb851eb851eb851eb851eb851e0, 1, 1, P);
    CongAdd(D * (BASE_Y * BASE_Y), 0x4e16ac1d8c70a2d94fdbae6237fc19fae18f62c0cd9ac81bd096982f688b2e79, 1, 1, P);
  }

  lemma DValue()
    ensures D == 0x52036cee2b6ffe738cc740797779e89800700a4d4141d8ab75eb4dca135978a3
  {
    ValueOfEight(FE_D);
  }

  lemma CandidateValue()
    ensures Cong(Candidate(BASE_Y), ROOT, P)
  {
    hide Prime, EdwardsD, CurveU, CurveV, IsPower;
    UAndVValues();
    var u, v := CurveU(BASE_Y), CurveV(BASE_Y);
    Product(v, V, v, V, 0x2fa3a5c814c0fd71c6cfc87b645d4a46a3a2468b96ffd3dbf11135fe55c895db,
        0x44b3828f305955bc9e3fe4cf311ec1b9e3ae487cc5a82a9c703c541afecf3165);
    Product(v * v, 0x44b3828f305955bc9e3fe4cf311ec1b9e3ae487cc5a82a9c703c541afecf3165, v, V,
        0x29e98ecac58f88495ae64afc235cc512d8150b5adda8519c9b3c308ca1df5df6, V3);
    var v3 := v * v * v;
    Product(v3, V3, v3, V3, 0x9088a6debcbb67395861a3763726a8538a22f6d70681a4883696651b8f0485e,
        0x11ff3ed00cf733ff369ee5e536a057184171e5dbd95241297cac6e13382a8e0a);
    Product(v3 * v3, 0x11ff3ed00cf733ff369ee5e536a057184171e5dbd95241297cac6e13382a8e0a, v, V,
        0xafaba58b7a3adabb0b2e2e93a32b75bc80e27204fcb7cae728aba0e635a3417,
        0x492e51c818d8d8f942432fa2ba92ebd54348f536829167bc678284f6f8ed5a79);
    Product(u, U, v3 * v3 * v, 0x492e51c818d8d8f942432fa2ba92ebd54348f536829167bc678284f6f8ed5a79,
        0x2ed5f6e6764d57a9c4020a01bf16597e3f8ada605390426419494adb8097e7fb, W);
    Product(u, U, v3, V3, 0x15c3361def9e7fe93213c2bad1048cab926df4a38a2b9e87dd7905e2e5c81a7d,
        0x2c141d1447ef29f858f39ac8d5f28f97cf8dab82ba996258b2243e9be3de2963);
    RootExponent();
    Constants();
    RootPower();
    PowerOf(u * (v3 * v3 * v), 0xffffffffffffffffffffffffffffffffffffffffffffffffffffffffffffffd,
        0x6538672abefadf7cd50e6b5f6b77950340be0a872606007486f39be49adfe0a);
    assert Value(FE_P_MINUS_5_OVER_8) == 0xffffffffffffffffffffffffffffffffffffffffffffffffffffffffffffffd;
    Product(u * v3, 0x2c141d1447ef29f858f39ac8d5f28f97cf8dab82ba996258b2243e9be3de2963, Power(u * (v3 * v3 * v),
        0xffffffffffffffffffffffffffffffffffffffffffffffffffffffffffffffd),
        0x6538672abefadf7cd50e6b5f6b77950340be0a872606007486f39be49adfe0a,
            0x22db4b45a1664bb34efe31baf93c7018b23212e4db34430e7256679bb7c11d7, ROOT);
  }

  lemma PowerOf(w: int, e: nat, t: int)
    requires Cong(w, W, P) && IsPower(W, e, t)
    ensures Cong(Power(w, e), t, P)
  {
    hide Prime;
    PowerCong(w, W, e, P);
  }

  lemma RootValue()
    ensures RootFound(BASE_Y) && Root(BASE_Y) == ROOT
  {
    hide Prime, EdwardsD, Candidate, CurveU, CurveV;
    CandidateValue();
    UAndVValues();
    var c := Candidate(BASE_Y);
    Product(c, ROOT, c, ROOT, 0x45e62919a6095821504ef153b9b70d2ef27518a4407ddf6bb67f4ac434dcbf4a,
        0x39e5a76b6f33fadbc92a232fdb1c32f2ebe39c555ccb6a7d690b8a0f82e81c67);
    Product(CurveV(BASE_Y), V, c * c, 0x39e5a76b6f33fadbc92a232fdb1c32f2ebe39c555ccb6a7d690b8a0f82e81c67,
        0x2352335834c1374b0a357ca8f9b5f4ba9368cdfd3bbb53817b303de6c6e61133, U);
    Constants();
    ResidueReduced(ROOT, P);
  }

  /** An encoding without the sign bit, of a y whose root is odd. */
  lemma DecodesNegated(encoded: seq<byte>,
        y: int,
        root: int)
    requires |encoded| == 32 && BytesValue(encoded) == y && 0 <= y < P
    requires RootFound(y) && Root(y) == root && root % 2 == 1
    ensures Decodable(encoded) && Decoded(encoded) == Ext(P - root, y, 1, Residue((P - root) * y, P))
  {
    hide Prime, EdwardsD, RootFound, Root, Residue, BytesValue, Cong;
    assert y < TWO_255 by { Constants(); }
    DivModUnique(y, TWO_255, 0, y);
  }

  /** The standard encoding decodes: to the point with y = 4/5 and the even x, which is not the neutral point. */
  lemma BaseDecodes()
    ensures Decodable(BASE_ENCODING)
    ensures Decoded(BASE_ENCODING) == Ext(BASE_X, BASE_Y, 1, Residue(BASE_X * BASE_Y, P))
    ensures Cong(5 * BASE_Y, 4, P) && BASE_X % 2 == 0 && BASE_X != 0
  {
    hide Prime, EdwardsD, RootFound, Root, Residue, Cong, Decodable, Decoded, BytesValue;
    EncodedValue();
    RootValue();
    Constants();
    DecodesNegated(BASE_ENCODING, BASE_Y, ROOT);
    CongMultiple(4, 0x4, P);
  }
}
