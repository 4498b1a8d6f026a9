/** The five lookup tables of lib/aes/aes.go, as functions of the index, row by row, and what their entries are. */
module AesTables {
  import opened Gf256

  function Te0Row0(c: bv8): bv32 {
    match c
    case 0 => 0xc66363a5 case 1 => 0xf87c7c84 case 2 => 0xee777799 case 3 => 0xf67b7b8d
    case 4 => 0xfff2f20d case 5 => 0xd66b6bbd case 6 => 0xde6f6fb1 case 7 => 0x91c5c554
    case 8 => 0x60303050 case 9 => 0x02010103 case 10 => 0xce6767a9 case 11 => 0x562b2b7d
    case 12 => 0xe7fefe19 case 13 => 0xb5d7d762 case 14 => 0x4dababe6 case _ => 0xec76769a
  }

  function Te0Row1(c: bv8): bv32 {
    match c
    case 0 => 0x8fcaca45 case 1 => 0x1f82829d case 2 => 0x89c9c940 case 3 => 0xfa7d7d87
    case 4 => 0xeffafa15 case 5 => 0xb25959eb case 6 => 0x8e4747c9 case 7 => 0xfbf0f00b
    case 8 => 0x41adadec case 9 => 0xb3d4d467 case 10 => 0x5fa2a2fd case 11 => 0x45afafea
    case 12 => 0x239c9cbf case 13 => 0x53a4a4f7 case 14 => 0xe4727296 case _ => 0x9bc0c05b
  }

  function Te0Row2(c: bv8): bv32 {
    match c
    case 0 => 0x75b7b7c2 case 1 => 0xe1fdfd1c case 2 => 0x3d9393ae case 3 => 0x4c26266a
    case 4 => 0x6c36365a case 5 => 0x7e3f3f41 case 6 => 0xf5f7f702 case 7 => 0x83cccc4f
    case 8 => 0x6834345c case 9 => 0x51a5a5f4 case 10 => 0xd1e5e534 case 11 => 0xf9f1f108
    case 12 => 0xe2717193 case 13 => 0xabd8d873 case 14 => 0x62313153 case _ => 0x2a15153f
  }

  function Te0Row3(c: bv8): bv32 {
    match c
    case 0 => 0x0804040c case 1 => 0x95c7c752 case 2 => 0x46232365 case 3 => 0x9dc3c35e
    case 4 => 0x30181828 case 5 => 0x379696a1 case 6 => 0x0a05050f case 7 => 0x2f9a9ab5
    case 8 => 0x0e070709 case 9 => 0x24121236 case 10 => 0x1b80809b case 11 => 0xdfe2e23d
    case 12 => 0xcdebeb26 case 13 => 0x4e272769 case 14 => 0x7fb2b2cd case _ => 0xea75759f
  }

  function Te0Row4(c: bv8): bv32 {
    match c
    case 0 => 0x1209091b case 1 => 0x1d83839e case 2 => 0x582c2c74 case 3 => 0x341a1a2e
    case 4 => 0x361b1b2d case 5 => 0xdc6e6eb2 case 6 => 0xb45a5aee case 7 => 0x5ba0a0fb
    case 8 => 0xa45252f6 case 9 => 0x763b3b4d case 10 => 0xb7d6d661 case 11 => 0x7db3b3ce
    case 12 => 0x5229297b case 13 => 0xdde3e33e case 14 => 0x5e2f2f71 case _ => 0x13848497
  }

  function Te0Row5(c: bv8): bv32 {
    match c
    case 0 => 0xa65353f5 case 1 => 0xb9d1d168 case 2 => 0x00000000 case 3 => 0xc1eded2c
    case 4 => 0x40202060 case 5 => 0xe3fcfc1f case 6 => 0x79b1b1c8 case 7 => 0xb65b5bed
    case 8 => 0xd46a6abe case 9 => 0x8dcbcb46 case 10 => 0x67bebed9 case 11 => 0x7239394b
    case 12 => 0x944a4ade case 13 => 0x984c4cd4 case 14 => 0xb05858e8 case _ => 0x85cfcf4a
  }

  function Te0Row6(c: bv8): bv32 {
    match c
    case 0 => 0xbbd0d06b case 1 => 0xc5efef2a case 2 => 0x4faaaae5 case 3 => 0xedfbfb16
    case 4 => 0x864343c5 case 5 => 0x9a4d4dd7 case 6 => 0x66333355 case 7 => 0x11858594
    case 8 => 0x8a4545cf case 9 => 0xe9f9f910 case 10 => 0x04020206 case 11 => 0xfe7f7f81
    case 12 => 0xa05050f0 case 13 => 0x783c3c44 case 14 => 0x259f9fba case _ => 0x4ba8a8e3
  }

  function Te0Row7(c: bv8): bv32 {
    match c
    case 0 => 0xa25151f3 case 1 => 0x5da3a3fe case 2 => 0x804040c0 case 3 => 0x058f8f8a
    case 4 => 0x3f9292ad case 5 => 0x219d9dbc case 6 => 0x70383848 case 7 => 0xf1f5f504
    case 8 => 0x63bcbcdf case 9 => 0x77b6b6c1 case 10 => 0xafdada75 case 11 => 0x42212163
    case 12 => 0x20101030 case 13 => 0xe5ffff1a case 14 => 0xfdf3f30e case _ => 0xbfd2d26d
  }

  function Te0Row8(c: bv8): bv32 {
    match c
    case 0 => 0x81cdcd4c case 1 => 0x180c0c14 case 2 => 0x26131335 case 3 => 0xc3ecec2f
    case 4 => 0xbe5f5fe1 case 5 => 0x359797a2 case 6 => 0x884444cc case 7 => 0x2e171739
    case 8 => 0x93c4c457 case 9 => 0x55a7a7f2 case 10 => 0xfc7e7e82 case 11 => 0x7a3d3d47
    case 12 => 0xc86464ac case 13 => 0xba5d5de7 case 14 => 0x3219192b case _ => 0xe6737395
  }

  function Te0Row9(c: bv8): bv32 {
    match c
    case 0 => 0xc06060a0 case 1 => 0x19818198 case 2 => 0x9e4f4fd1 case 3 => 0xa3dcdc7f
    case 4 => 0x44222266 case 5 => 0x542a2a7e case 6 => 0x3b9090ab case 7 => 0x0b888883
    case 8 => 0x8c4646ca case 9 => 0xc7eeee29 case 10 => 0x6bb8b8d3 case 11 => 0x2814143c
    case 12 => 0xa7dede79 case 13 => 0xbc5e5ee2 case 14 => 0x160b0b1d case _ => 0xaddbdb76
  }

  function Te0RowA(c: bv8): bv32 {
    match c
    case 0 => 0xdbe0e03b case 1 => 0x64323256 case 2 => 0x743a3a4e case 3 => 0x140a0a1e
    case 4 => 0x924949db case 5 => 0x0c06060a case 6 => 0x4824246c case 7 => 0xb85c5ce4
    case 8 => 0x9fc2c25d case 9 => 0xbdd3d36e case 10 => 0x43acacef case 11 => 0xc46262a6
    case 12 => 0x399191a8 case 13 => 0x319595a4 case 14 => 0xd3e4e437 case _ => 0xf279798b
  }

  function Te0RowB(c: bv8): bv32 {
    match c
    case 0 => 0xd5e7e732 case 1 => 0x8bc8c843 case 2 => 0x6e373759 case 3 => 0xda6d6db7
    case 4 => 0x018d8d8c case 5 => 0xb1d5d564 case 6 => 0x9c4e4ed2 case 7 => 0x49a9a9e0
    case 8 => 0xd86c6cb4 case 9 => 0xac5656fa case 10 => 0xf3f4f407 case 11 => 0xcfeaea25
    case 12 => 0xca6565af case 13 => 0xf47a7a8e case 14 => 0x47aeaee9 case _ => 0x10080818
  }

  function Te0RowC(c: bv8): bv32 {
    match c
    case 0 => 0x6fbabad5 case 1 => 0xf0787888 case 2 => 0x4a25256f case 3 => 0x5c2e2e72
    case 4 => 0x381c1c24 case 5 => 0x57a6a6f1 case 6 => 0x73b4b4c7 case 7 => 0x97c6c651
    case 8 => 0xcbe8e823 case 9 => 0xa1dddd7c case 10 => 0xe874749c case 11 => 0x3e1f1f21
    case 12 => 0x964b4bdd case 13 => 0x61bdbddc case 14 => 0x0d8b8b86 case _ => 0x0f8a8a85
  }

  function Te0RowD(c: bv8): bv32 {
    match c
    case 0 => 0xe0707090 case 1 => 0x7c3e3e42 case 2 => 0x71b5b5c4 case 3 => 0xcc6666aa
    case 4 => 0x904848d8 case 5 => 0x06030305 case 6 => 0xf7f6f601 case 7 => 0x1c0e0e12
    case 8 => 0xc26161a3 case 9 => 0x6a35355f case 10 => 0xae5757f9 case 11 => 0x69b9b9d0
    case 12 => 0x17868691 case 13 => 0x99c1c158 case 14 => 0x3a1d1d27 case _ => 0x279e9eb9
  }

  function Te0RowE(c: bv8): bv32 {
    match c
    case 0 => 0xd9e1e138 case 1 => 0xebf8f813 case 2 => 0x2b9898b3 case 3 => 0x22111133
    case 4 => 0xd26969bb case 5 => 0xa9d9d970 case 6 => 0x078e8e89 case 7 => 0x339494a7
    case 8 => 0x2d9b9bb6 case 9 => 0x3c1e1e22 case 10 => 0x15878792 case 11 => 0xc9e9e920
    case 12 => 0x87cece49 case 13 => 0xaa5555ff case 14 => 0x50282878 case _ => 0xa5dfdf7a
  }

  function Te0RowF(c: bv8): bv32 {
    match c
    case 0 => 0x038c8c8f case 1 => 0x59a1a1f8 case 2 => 0x09898980 case 3 => 0x1a0d0d17
    case 4 => 0x65bfbfda case 5 => 0xd7e6e631 case 6 => 0x844242c6 case 7 => 0xd06868b8
    case 8 => 0x824141c3 case 9 => 0x299999b0 case 10 => 0x5a2d2d77 case 11 => 0x1e0f0f11
    case 12 => 0x7bb0b0cb case 13 => 0xa85454fc case 14 => 0x6dbbbbd6 case _ => 0x2c16163a
  }

  function Te0(i: bv8): bv32 {
    match i >> 4
    case 0 => Te0Row0(i & 15) case 1 => Te0Row1(i & 15) case 2 => Te0Row2(i & 15) case 3 => Te0Row3(i & 15)
    case 4 => Te0Row4(i & 15) case 5 => Te0Row5(i & 15) case 6 => Te0Row6(i & 15) case 7 => Te0Row7(i & 15)
    case 8 => Te0Row8(i & 15) case 9 => Te0Row9(i & 15) case 10 => Te0RowA(i & 15) case 11 => Te0RowB(i & 15)
    case 12 => Te0RowC(i & 15) case 13 => Te0RowD(i & 15) case 14 => Te0RowE(i & 15) case _ => Te0RowF(i & 15)
  }

  function Te1Row0(c: bv8): bv32 {
    match c
    case 0 => 0xa5c66363 case 1 => 0x84f87c7c case 2 => 0x99ee7777 case 3 => 0x8df67b7b
    case 4 => 0x0dfff2f2 case 5 => 0xbdd66b6b case 6 => 0xb1de6f6f case 7 => 0x5491c5c5
    case 8 => 0x50603030 case 9 => 0x03020101 case 10 => 0xa9ce6767 case 11 => 0x7d562b2b
    case 12 => 0x19e7fefe case 13 => 0x62b5d7d7 case 14 => 0xe64dabab case _ => 0x9aec7676
  }

  function Te1Row1(c: bv8): bv32 {
    match c
    case 0 => 0x458fcaca case 1 => 0x9d1f8282 case 2 => 0x4089c9c9 case 3 => 0x87fa7d7d
    case 4 => 0x15effafa case 5 => 0xebb25959 case 6 => 0xc98e4747 case 7 => 0x0bfbf0f0
    case 8 => 0xec41adad case 9 => 0x67b3d4d4 case 10 => 0xfd5fa2a2 case 11 => 0xea45afaf
    case 12 => 0xbf239c9c case 13 => 0xf753a4a4 case 14 => 0x96e47272 case _ => 0x5b9bc0c0
  }

  function Te1Row2(c: bv8): bv32 {
    match c
    case 0 => 0xc275b7b7 case 1 => 0x1ce1fdfd case 2 => 0xae3d9393 case 3 => 0x6a4c2626
    case 4 => 0x5a6c3636 case 5 => 0x417e3f3f case 6 => 0x02f5f7f7 case 7 => 0x4f83cccc
    case 8 => 0x5c683434 case 9 => 0xf451a5a5 case 10 => 0x34d1e5e5 case 11 => 0x08f9f1f1
    case 12 => 0x93e27171 case 13 => 0x73abd8d8 case 14 => 0x53623131 case _ => 0x3f2a1515
  }

  function Te1Row3(c: bv8): bv32 {
    match c
    case 0 => 0x0c080404 case 1 => 0x5295c7c7 case 2 => 0x65462323 case 3 => 0x5e9dc3c3
    case 4 => 0x28301818 case 5 => 0xa1379696 case 6 => 0x0f0a0505 case 7 => 0xb52f9a9a
    case 8 => 0x090e0707 case 9 => 0x36241212 case 10 => 0x9b1b8080 case 11 => 0x3ddfe2e2
    case 12 => 0x26cdebeb case 13 => 0x694e2727 case 14 => 0xcd7fb2b2 case _ => 0x9fea7575
  }

  function Te1Row4(c: bv8): bv32 {
    match c
    case 0 => 0x1b120909 case 1 => 0x9e1d8383 case 2 => 0x74582c2c case 3 => 0x2e341a1a
    case 4 => 0x2d361b1b case 5 => 0xb2dc6e6e case 6 => 0xeeb45a5a case 7 => 0xfb5ba0a0
    case 8 => 0xf6a45252 case 9 => 0x4d763b3b case 10 => 0x61b7d6d6 case 11 => 0xce7db3b3
    case 12 => 0x7b522929 case 13 => 0x3edde3e3 case 14 => 0x715e2f2f case _ => 0x97138484
  }

  function Te1Row5(c: bv8): bv32 {
    match c
    case 0 => 0xf5a65353 case 1 => 0x68b9d1d1 case 2 => 0x00000000 case 3 => 0x2cc1eded
    case 4 => 0x60402020 case 5 => 0x1fe3fcfc case 6 => 0xc879b1b1 case 7 => 0xedb65b5b
    case 8 => 0xbed46a6a case 9 => 0x468dcbcb case 10 => 0xd967bebe case 11 => 0x4b723939
    case 12 => 0xde944a4a case 13 => 0xd4984c4c case 14 => 0xe8b05858 case _ => 0x4a85cfcf
  }

  function Te1Row6(c: bv8): bv32 {
    match c
    case 0 => 0x6bbbd0d0 case 1 => 0x2ac5efef case 2 => 0xe54faaaa case 3 => 0x16edfbfb
    case 4 => 0xc5864343 case 5 => 0xd79a4d4d case 6 => 0x55663333 case 7 => 0x94118585
    case 8 => 0xcf8a4545 case 9 => 0x10e9f9f9 case 10 => 0x06040202 case 11 => 0x81fe7f7f
    case 12 => 0xf0a05050 case 13 => 0x44783c3c case 14 => 0xba259f9f case _ => 0xe34ba8a8
  }

  function Te1Row7(c: bv8): bv32 {
    match c
    case 0 => 0xf3a25151 case 1 => 0xfe5da3a3 case 2 => 0xc0804040 case 3 => 0x8a058f8f
    case 4 => 0xad3f9292 case 5 => 0xbc219d9d case 6 => 0x48703838 case 7 => 0x04f1f5f5
    case 8 => 0xdf63bcbc case 9 => 0xc177b6b6 case 10 => 0x75afdada case 11 => 0x63422121
    case 12 => 0x30201010 case 13 => 0x1ae5ffff case 14 => 0x0efdf3f3 case _ => 0x6dbfd2d2
  }

  function Te1Row8(c: bv8): bv32 {
    match c
    case 0 => 0x4c81cdcd case 1 => 0x14180c0c case 2 => 0x35261313 case 3 => 0x2fc3ecec
    case 4 => 0xe1be5f5f case 5 => 0xa2359797 case 6 => 0xcc884444 case 7 => 0x392e1717
    case 8 => 0x5793c4c4 case 9 => 0xf255a7a7 case 10 => 0x82fc7e7e case 11 => 0x477a3d3d
    case 12 => 0xacc86464 case 13 => 0xe7ba5d5d case 14 => 0x2b321919 case _ => 0x95e67373
  }

  function Te1Row9(c: bv8): bv32 {
    match c
    case 0 => 0xa0c06060 case 1 => 0x98198181 case 2 => 0xd19e4f4f case 3 => 0x7fa3dcdc
    case 4 => 0x66442222 case 5 => 0x7e542a2a case 6 => 0xab3b9090 case 7 => 0x830b8888
    case 8 => 0xca8c4646 case 9 => 0x29c7eeee case 10 => 0xd36bb8b8 case 11 => 0x3c281414
    case 12 => 0x79a7dede case 13 => 0xe2bc5e5e case 14 => 0x1d160b0b case _ => 0x76addbdb
  }

  function Te1RowA(c: bv8): bv32 {
    match c
    case 0 => 0x3bdbe0e0 case 1 => 0x56643232 case 2 => 0x4e743a3a case 3 => 0x1e140a0a
    case 4 => 0xdb924949 case 5 => 0x0a0c0606 case 6 => 0x6c482424 case 7 => 0xe4b85c5c
    case 8 => 0x5d9fc2c2 case 9 => 0x6ebdd3d3 case 10 => 0xef43acac case 11 => 0xa6c46262
    case 12 => 0xa8399191 case 13 => 0xa4319595 case 14 => 0x37d3e4e4 case _ => 0x8bf27979
  }

  function Te1RowB(c: bv8): bv32 {
    match c
    case 0 => 0x32d5e7e7 case 1 => 0x438bc8c8 case 2 => 0x596e3737 case 3 => 0xb7da6d6d
    case 4 => 0x8c018d8d case 5 => 0x64b1d5d5 case 6 => 0xd29c4e4e case 7 => 0xe049a9a9
    case 8 => 0xb4d86c6c case 9 => 0xfaac5656 case 10 => 0x07f3f4f4 case 11 => 0x25cfeaea
    case 12 => 0xafca6565 case 13 => 0x8ef47a7a case 14 => 0xe947aeae case _ => 0x18100808
  }

  function Te1RowC(c: bv8): bv32 {
    match c
    case 0 => 0xd56fbaba case 1 => 0x88f07878 case 2 => 0x6f4a2525 case 3 => 0x725c2e2e
    case 4 => 0x24381c1c case 5 => 0xf157a6a6 case 6 => 0xc773b4b4 case 7 => 0x5197c6c6
    case 8 => 0x23cbe8e8 case 9 => 0x7ca1dddd case 10 => 0x9ce87474 case 11 => 0x213e1f1f
    case 12 => 0xdd964b4b case 13 => 0xdc61bdbd case 14 => 0x860d8b8b case _ => 0x850f8a8a
  }

  function Te1RowD(c: bv8): bv32 {
    match c
    case 0 => 0x90e07070 case 1 => 0x427c3e3e case 2 => 0xc471b5b5 case 3 => 0xaacc6666
    case 4 => 0xd8904848 case 5 => 0x05060303 case 6 => 0x01f7f6f6 case 7 => 0x121c0e0e
    case 8 => 0xa3c26161 case 9 => 0x5f6a3535 case 10 => 0xf9ae5757 case 11 => 0xd069b9b9
    case 12 => 0x91178686 case 13 => 0x5899c1c1 case 14 => 0x273a1d1d case _ => 0xb9279e9e
  }

  function Te1RowE(c: bv8): bv32 {
    match c
    case 0 => 0x38d9e1e1 case 1 => 0x13ebf8f8 case 2 => 0xb32b9898 case 3 => 0x33221111
    case 4 => 0xbbd26969 case 5 => 0x70a9d9d9 case 6 => 0x89078e8e case 7 => 0xa7339494
    case 8 => 0xb62d9b9b case 9 => 0x223c1e1e case 10 => 0x92158787 case 11 => 0x20c9e9e9
    case 12 => 0x4987cece case 13 => 0xffaa5555 case 14 => 0x78502828 case _ => 0x7aa5dfdf
  }

  function Te1RowF(c: bv8): bv32 {
    match c
    case 0 => 0x8f038c8c case 1 => 0xf859a1a1 case 2 => 0x80098989 case 3 => 0x171a0d0d
    case 4 => 0xda65bfbf case 5 => 0x31d7e6e6 case 6 => 0xc6844242 case 7 => 0xb8d06868
    case 8 => 0xc3824141 case 9 => 0xb0299999 case 10 => 0x775a2d2d case 11 => 0x111e0f0f
    case 12 => 0xcb7bb0b0 case 13 => 0xfca85454 case 14 => 0xd66dbbbb case _ => 0x3a2c1616
  }

  function Te1(i: bv8): bv32 {
    match i >> 4
    case 0 => Te1Row0(i & 15) case 1 => Te1Row1(i & 15) case 2 => Te1Row2(i & 15) case 3 => Te1Row3(i & 15)
    case 4 => Te1Row4(i & 15) case 5 => Te1Row5(i & 15) case 6 => Te1Row6(i & 15) case 7 => Te1Row7(i & 15)
    case 8 => Te1Row8(i & 15) case 9 => Te1Row9(i & 15) case 10 => Te1RowA(i & 15) case 11 => Te1RowB(i & 15)
    case 12 => Te1RowC(i & 15) case 13 => Te1RowD(i & 15) case 14 => Te1RowE(i & 15) case _ => Te1RowF(i & 15)
  }

  function Te2Row0(c: bv8): bv32 {
    match c
    case 0 => 0x63a5c663 case 1 => 0x7c84f87c case 2 => 0x7799ee77 case 3 => 0x7b8df67b
    case 4 => 0xf20dfff2 case 5 => 0x6bbdd66b case 6 => 0x6fb1de6f case 7 => 0xc55491c5
    case 8 => 0x30506030 case 9 => 0x01030201 case 10 => 0x67a9ce67 case 11 => 0x2b7d562b
    case 12 => 0xfe19e7fe case 13 => 0xd762b5d7 case 14 => 0xabe64dab case _ => 0x769aec76
  }

  function Te2Row1(c: bv8): bv32 {
    match c
    case 0 => 0xca458fca case 1 => 0x829d1f82 case 2 => 0xc94089c9 case 3 => 0x7d87fa7d
    case 4 => 0xfa15effa case 5 => 0x59ebb259 case 6 => 0x47c98e47 case 7 => 0xf00bfbf0
    case 8 => 0xadec41ad case 9 => 0xd467b3d4 case 10 => 0xa2fd5fa2 case 11 => 0xafea45af
    case 12 => 0x9cbf239c case 13 => 0xa4f753a4 case 14 => 0x7296e472 case _ => 0xc05b9bc0
  }

  function Te2Row2(c: bv8): bv32 {
    match c
    case 0 => 0xb7c275b7 case 1 => 0xfd1ce1fd case 2 => 0x93ae3d93 case 3 => 0x266a4c26
    case 4 => 0x365a6c36 case 5 => 0x3f417e3f case 6 => 0xf702f5f7 case 7 => 0xcc4f83cc
    case 8 => 0x345c6834 case 9 => 0xa5f451a5 case 10 => 0xe534d1e5 case 11 => 0xf108f9f1
    case 12 => 0x7193e271 case 13 => 0xd873abd8 case 14 => 0x31536231 case _ => 0x153f2a15
  }

  function Te2Row3(c: bv8): bv32 {
    match c
    case 0 => 0x040c0804 case 1 => 0xc75295c7 case 2 => 0x23654623 case 3 => 0xc35e9dc3
    case 4 => 0x18283018 case 5 => 0x96a13796 case 6 => 0x050f0a05 case 7 => 0x9ab52f9a
    case 8 => 0x07090e07 case 9 => 0x12362412 case 10 => 0x809b1b80 case 11 => 0xe23ddfe2
    case 12 => 0xeb26cdeb case 13 => 0x27694e27 case 14 => 0xb2cd7fb2 case _ => 0x759fea75
  }

  function Te2Row4(c: bv8): bv32 {
    match c
    case 0 => 0x091b1209 case 1 => 0x839e1d83 case 2 => 0x2c74582c case 3 => 0x1a2e341a
    case 4 => 0x1b2d361b case 5 => 0x6eb2dc6e case 6 => 0x5aeeb45a case 7 => 0xa0fb5ba0
    case 8 => 0x52f6a452 case 9 => 0x3b4d763b case 10 => 0xd661b7d6 case 11 => 0xb3ce7db3
    case 12 => 0x297b5229 case 13 => 0xe33edde3 case 14 => 0x2f715e2f case _ => 0x84971384
  }

  function Te2Row5(c: bv8): bv32 {
    match c
    case 0 => 0x53f5a653 case 1 => 0xd168b9d1 case 2 => 0x00000000 case 3 => 0xed2cc1ed
    case 4 => 0x20604020 case 5 => 0xfc1fe3fc case 6 => 0xb1c879b1 case 7 => 0x5bedb65b
    case 8 => 0x6abed46a case 9 => 0xcb468dcb case 10 => 0xbed967be case 11 => 0x394b7239
    case 12 => 0x4ade944a case 13 => 0x4cd4984c case 14 => 0x58e8b058 case _ => 0xcf4a85cf
  }

  function Te2Row6(c: bv8): bv32 {
    match c
    case 0 => 0xd06bbbd0 case 1 => 0xef2ac5ef case 2 => 0xaae54faa case 3 => 0xfb16edfb
    case 4 => 0x43c58643 case 5 => 0x4dd79a4d case 6 => 0x33556633 case 7 => 0x85941185
    case 8 => 0x45cf8a45 case 9 => 0xf910e9f9 case 10 => 0x02060402 case 11 => 0x7f81fe7f
    case 12 => 0x50f0a050 case 13 => 0x3c44783c case 14 => 0x9fba259f case _ => 0xa8e34ba8
  }

  function Te2Row7(c: bv8): bv32 {
    match c
    case 0 => 0x51f3a251 case 1 => 0xa3fe5da3 case 2 => 0x40c08040 case 3 => 0x8f8a058f
    case 4 => 0x92ad3f92 case 5 => 0x9dbc219d case 6 => 0x38487038 case 7 => 0xf504f1f5
    case 8 => 0xbcdf63bc case 9 => 0xb6c177b6 case 10 => 0xda75afda case 11 => 0x21634221
    case 12 => 0x10302010 case 13 => 0xff1ae5ff case 14 => 0xf30efdf3 case _ => 0xd26dbfd2
  }

  function Te2Row8(c: bv8): bv32 {
    match c
    case 0 => 0xcd4c81cd case 1 => 0x0c14180c case 2 => 0x13352613 case 3 => 0xec2fc3ec
    case 4 => 0x5fe1be5f case 5 => 0x97a23597 case 6 => 0x44cc8844 case 7 => 0x17392e17
    case 8 => 0xc45793c4 case 9 => 0xa7f255a7 case 10 => 0x7e82fc7e case 11 => 0x3d477a3d
    case 12 => 0x64acc864 case 13 => 0x5de7ba5d case 14 => 0x192b3219 case _ => 0x7395e673
  }

  function Te2Row9(c: bv8): bv32 {
    match c
    case 0 => 0x60a0c060 case 1 => 0x81981981 case 2 => 0x4fd19e4f case 3 => 0xdc7fa3dc
    case 4 => 0x22664422 case 5 => 0x2a7e542a case 6 => 0x90ab3b90 case 7 => 0x88830b88
    case 8 => 0x46ca8c46 case 9 => 0xee29c7ee case 10 => 0xb8d36bb8 case 11 => 0x143c2814
    case 12 => 0xde79a7de case 13 => 0x5ee2bc5e case 14 => 0x0b1d160b case _ => 0xdb76addb
  }

  function Te2RowA(c: bv8): bv32 {
    match c
    case 0 => 0xe03bdbe0 case 1 => 0x32566432 case 2 => 0x3a4e743a case 3 => 0x0a1e140a
    case 4 => 0x49db9249 case 5 => 0x060a0c06 case 6 => 0x246c4824 case 7 => 0x5ce4b85c
    case 8 => 0xc25d9fc2 case 9 => 0xd36ebdd3 case 10 => 0xacef43ac case 11 => 0x62a6c462
    case 12 => 0x91a83991 case 13 => 0x95a43195 case 14 => 0xe437d3e4 case _ => 0x798bf279
  }

  function Te2RowB(c: bv8): bv32 {
    match c
    case 0 => 0xe732d5e7 case 1 => 0xc8438bc8 case 2 => 0x37596e37 case 3 => 0x6db7da6d
    case 4 => 0x8d8c018d case 5 => 0xd564b1d5 case 6 => 0x4ed29c4e case 7 => 0xa9e049a9
    case 8 => 0x6cb4d86c case 9 => 0x56faac56 case 10 => 0xf407f3f4 case 11 => 0xea25cfea
    case 12 => 0x65afca65 case 13 => 0x7a8ef47a case 14 => 0xaee947ae case _ => 0x08181008
  }

  function Te2RowC(c: bv8): bv32 {
    match c
    case 0 => 0xbad56fba case 1 => 0x7888f078 case 2 => 0x256f4a25 case 3 => 0x2e725c2e
    case 4 => 0x1c24381c case 5 => 0xa6f157a6 case 6 => 0xb4c773b4 case 7 => 0xc65197c6
    case 8 => 0xe823cbe8 case 9 => 0xdd7ca1dd case 10 => 0x749ce874 case 11 => 0x1f213e1f
    case 12 => 0x4bdd964b case 13 => 0xbddc61bd case 14 => 0x8b860d8b case _ => 0x8a850f8a
  }

  function Te2RowD(c: bv8): bv32 {
    match c
    case 0 => 0x7090e070 case 1 => 0x3e427c3e case 2 => 0xb5c471b5 case 3 => 0x66aacc66
    case 4 => 0x48d89048 case 5 => 0x03050603 case 6 => 0xf601f7f6 case 7 => 0x0e121c0e
    case 8 => 0x61a3c261 case 9 => 0x355f6a35 case 10 => 0x57f9ae57 case 11 => 0xb9d069b9
    case 12 => 0x86911786 case 13 => 0xc15899c1 case 14 => 0x1d273a1d case _ => 0x9eb9279e
  }

  function Te2RowE(c: bv8): bv32 {
    match c
    case 0 => 0xe138d9e1 case 1 => 0xf813ebf8 case 2 => 0x98b32b98 case 3 => 0x11332211
    case 4 => 0x69bbd269 case 5 => 0xd970a9d9 case 6 => 0x8e89078e case 7 => 0x94a73394
    case 8 => 0x9bb62d9b case 9 => 0x1e223c1e case 10 => 0x87921587 case 11 => 0xe920c9e9
    case 12 => 0xce4987ce case 13 => 0x55ffaa55 case 14 => 0x28785028 case _ => 0xdf7aa5df
  }

  function Te2RowF(c: bv8): bv32 {
    match c
    case 0 => 0x8c8f038c case 1 => 0xa1f859a1 case 2 => 0x89800989 case 3 => 0x0d171a0d
    case 4 => 0xbfda65bf case 5 => 0xe631d7e6 case 6 => 0x42c68442 case 7 => 0x68b8d068
    case 8 => 0x41c38241 case 9 => 0x99b02999 case 10 => 0x2d775a2d case 11 => 0x0f111e0f
    case 12 => 0xb0cb7bb0 case 13 => 0x54fca854 case 14 => 0xbbd66dbb case _ => 0x163a2c16
  }

  function Te2(i: bv8): bv32 {
    match i >> 4
    case 0 => Te2Row0(i & 15) case 1 => Te2Row1(i & 15) case 2 => Te2Row2(i & 15) case 3 => Te2Row3(i & 15)
    case 4 => Te2Row4(i & 15) case 5 => Te2Row5(i & 15) case 6 => Te2Row6(i & 15) case 7 => Te2Row7(i & 15)
    case 8 => Te2Row8(i & 15) case 9 => Te2Row9(i & 15) case 10 => Te2RowA(i & 15) case 11 => Te2RowB(i & 15)
    case 12 => Te2RowC(i & 15) case 13 => Te2RowD(i & 15) case 14 => Te2RowE(i & 15) case _ => Te2RowF(i & 15)
  }

  function Te3Row0(c: bv8): bv32 {
    match c
    case 0 => 0x6363a5c6 case 1 => 0x7c7c84f8 case 2 => 0x777799ee case 3 => 0x7b7b8df6
    case 4 => 0xf2f20dff case 5 => 0x6b6bbdd6 case 6 => 0x6f6fb1de case 7 => 0xc5c55491
    case 8 => 0x30305060 case 9 => 0x01010302 case 10 => 0x6767a9ce case 11 => 0x2b2b7d56
    case 12 => 0xfefe19e7 case 13 => 0xd7d762b5 case 14 => 0xababe64d case _ => 0x76769aec
  }

  function Te3Row1(c: bv8): bv32 {
    match c
    case 0 => 0xcaca458f case 1 => 0x82829d1f case 2 => 0xc9c94089 case 3 => 0x7d7d87fa
    case 4 => 0xfafa15ef case 5 => 0x5959ebb2 case 6 => 0x4747c98e case 7 => 0xf0f00bfb
    case 8 => 0xadadec41 case 9 => 0xd4d467b3 case 10 => 0xa2a2fd5f case 11 => 0xafafea45
    case 12 => 0x9c9cbf23 case 13 => 0xa4a4f753 case 14 => 0x727296e4 case _ => 0xc0c05b9b
  }

  function Te3Row2(c: bv8): bv32 {
    match c
    case 0 => 0xb7b7c275 case 1 => 0xfdfd1ce1 case 2 => 0x9393ae3d case 3 => 0x26266a4c
    case 4 => 0x36365a6c case 5 => 0x3f3f417e case 6 => 0xf7f702f5 case 7 => 0xcccc4f83
    case 8 => 0x34345c68 case 9 => 0xa5a5f451 case 10 => 0xe5e534d1 case 11 => 0xf1f108f9
    case 12 => 0x717193e2 case 13 => 0xd8d873ab case 14 => 0x31315362 case _ => 0x15153f2a
  }

  function Te3Row3(c: bv8): bv32 {
    match c
    case 0 => 0x04040c08 case 1 => 0xc7c75295 case 2 => 0x23236546 case 3 => 0xc3c35e9d
    case 4 => 0x18182830 case 5 => 0x9696a137 case 6 => 0x05050f0a case 7 => 0x9a9ab52f
    case 8 => 0x0707090e case 9 => 0x12123624 case 10 => 0x80809b1b case 11 => 0xe2e23ddf
    case 12 => 0xebeb26cd case 13 => 0x2727694e case 14 => 0xb2b2cd7f case _ => 0x75759fea
  }

  function Te3Row4(c: bv8): bv32 {
    match c
    case 0 => 0x09091b12 case 1 => 0x83839e1d case 2 => 0x2c2c7458 case 3 => 0x1a1a2e34
    case 4 => 0x1b1b2d36 case 5 => 0x6e6eb2dc case 6 => 0x5a5aeeb4 case 7 => 0xa0a0fb5b
    case 8 => 0x5252f6a4 case 9 => 0x3b3b4d76 case 10 => 0xd6d661b7 case 11 => 0xb3b3ce7d
    case 12 => 0x29297b52 case 13 => 0xe3e33edd case 14 => 0x2f2f715e case _ => 0x84849713
  }

  function Te3Row5(c: bv8): bv32 {
    match c
    case 0 => 0x5353f5a6 case 1 => 0xd1d168b9 case 2 => 0x00000000 case 3 => 0xeded2cc1
    case 4 => 0x20206040 case 5 => 0xfcfc1fe3 case 6 => 0xb1b1c879 case 7 => 0x5b5bedb6
    case 8 => 0x6a6abed4 case 9 => 0xcbcb468d case 10 => 0xbebed967 case 11 => 0x39394b72
    case 12 => 0x4a4ade94 case 13 => 0x4c4cd498 case 14 => 0x5858e8b0 case _ => 0xcfcf4a85
  }

  function Te3Row6(c: bv8): bv32 {
    match c
    case 0 => 0xd0d06bbb case 1 => 0xefef2ac5 case 2 => 0xaaaae54f case 3 => 0xfbfb16ed
    case 4 => 0x4343c586 case 5 => 0x4d4dd79a case 6 => 0x33335566 case 7 => 0x85859411
    case 8 => 0x4545cf8a case 9 => 0xf9f910e9 case 10 => 0x02020604 case 11 => 0x7f7f81fe
    case 12 => 0x5050f0a0 case 13 => 0x3c3c4478 case 14 => 0x9f9fba25 case _ => 0xa8a8e34b
  }

  function Te3Row7(c: bv8): bv32 {
    match c
    case 0 => 0x5151f3a2 case 1 => 0xa3a3fe5d case 2 => 0x4040c080 case 3 => 0x8f8f8a05
    case 4 => 0x9292ad3f case 5 => 0x9d9dbc21 case 6 => 0x38384870 case 7 => 0xf5f504f1
    case 8 => 0xbcbcdf63 case 9 => 0xb6b6c177 case 10 => 0xdada75af case 11 => 0x21216342
    case 12 => 0x10103020 case 13 => 0xffff1ae5 case 14 => 0xf3f30efd case _ => 0xd2d26dbf
  }

  function Te3Row8(c: bv8): bv32 {
    match c
    case 0 => 0xcdcd4c81 case 1 => 0x0c0c1418 case 2 => 0x13133526 case 3 => 0xecec2fc3
    case 4 => 0x5f5fe1be case 5 => 0x9797a235 case 6 => 0x4444cc88 case 7 => 0x1717392e
    case 8 => 0xc4c45793 case 9 => 0xa7a7f255 case 10 => 0x7e7e82fc case 11 => 0x3d3d477a
    case 12 => 0x6464acc8 case 13 => 0x5d5de7ba case 14 => 0x19192b32 case _ => 0x737395e6
  }

  function Te3Row9(c: bv8): bv32 {
    match c
    case 0 => 0x6060a0c0 case 1 => 0x81819819 case 2 => 0x4f4fd19e case 3 => 0xdcdc7fa3
    case 4 => 0x22226644 case 5 => 0x2a2a7e54 case 6 => 0x9090ab3b case 7 => 0x8888830b
    case 8 => 0x4646ca8c case 9 => 0xeeee29c7 case 10 => 0xb8b8d36b case 11 => 0x14143c28
    case 12 => 0xdede79a7 case 13 => 0x5e5ee2bc case 14 => 0x0b0b1d16 case _ => 0xdbdb76ad
  }

  function Te3RowA(c: bv8): bv32 {
    match c
    case 0 => 0xe0e03bdb case 1 => 0x32325664 case 2 => 0x3a3a4e74 case 3 => 0x0a0a1e14
    case 4 => 0x4949db92 case 5 => 0x06060a0c case 6 => 0x24246c48 case 7 => 0x5c5ce4b8
    case 8 => 0xc2c25d9f case 9 => 0xd3d36ebd case 10 => 0xacacef43 case 11 => 0x6262a6c4
    case 12 => 0x9191a839 case 13 => 0x9595a431 case 14 => 0xe4e437d3 case _ => 0x79798bf2
  }

  function Te3RowB(c: bv8): bv32 {
    match c
    case 0 => 0xe7e732d5 case 1 => 0xc8c8438b case 2 => 0x3737596e case 3 => 0x6d6db7da
    case 4 => 0x8d8d8c01 case 5 => 0xd5d564b1 case 6 => 0x4e4ed29c case 7 => 0xa9a9e049
    case 8 => 0x6c6cb4d8 case 9 => 0x5656faac case 10 => 0xf4f407f3 case 11 => 0xeaea25cf
    case 12 => 0x6565afca case 13 => 0x7a7a8ef4 case 14 => 0xaeaee947 case _ => 0x08081810
  }

  function Te3RowC(c: bv8): bv32 {
    match c
    case 0 => 0xbabad56f case 1 => 0x787888f0 case 2 => 0x25256f4a case 3 => 0x2e2e725c
    case 4 => 0x1c1c2438 case 5 => 0xa6a6f157 case 6 => 0xb4b4c773 case 7 => 0xc6c65197
    case 8 => 0xe8e823cb case 9 => 0xdddd7ca1 case 10 => 0x74749ce8 case 11 => 0x1f1f213e
    case 12 => 0x4b4bdd96 case 13 => 0xbdbddc61 case 14 => 0x8b8b860d case _ => 0x8a8a850f
  }

  function Te3RowD(c: bv8): bv32 {
    match c
    case 0 => 0x707090e0 case 1 => 0x3e3e427c case 2 => 0xb5b5c471 case 3 => 0x6666aacc
    case 4 => 0x4848d890 case 5 => 0x03030506 case 6 => 0xf6f601f7 case 7 => 0x0e0e121c
    case 8 => 0x6161a3c2 case 9 => 0x35355f6a case 10 => 0x5757f9ae case 11 => 0xb9b9d069
    case 12 => 0x86869117 case 13 => 0xc1c15899 case 14 => 0x1d1d273a case _ => 0x9e9eb927
  }

  function Te3RowE(c: bv8): bv32 {
    match c
    case 0 => 0xe1e138d9 case 1 => 0xf8f813eb case 2 => 0x9898b32b case 3 => 0x11113322
    case 4 => 0x6969bbd2 case 5 => 0xd9d970a9 case 6 => 0x8e8e8907 case 7 => 0x9494a733
    case 8 => 0x9b9bb62d case 9 => 0x1e1e223c case 10 => 0x87879215 case 11 => 0xe9e920c9
    case 12 => 0xcece4987 case 13 => 0x5555ffaa case 14 => 0x28287850 case _ => 0xdfdf7aa5
  }

  function Te3RowF(c: bv8): bv32 {
    match c
    case 0 => 0x8c8c8f03 case 1 => 0xa1a1f859 case 2 => 0x89898009 case 3 => 0x0d0d171a
    case 4 => 0xbfbfda65 case 5 => 0xe6e631d7 case 6 => 0x4242c684 case 7 => 0x6868b8d0
    case 8 => 0x4141c382 case 9 => 0x9999b029 case 10 => 0x2d2d775a case 11 => 0x0f0f111e
    case 12 => 0xb0b0cb7b case 13 => 0x5454fca8 case 14 => 0xbbbbd66d case _ => 0x16163a2c
  }

  function Te3(i: bv8): bv32 {
    match i >> 4
    case 0 => Te3Row0(i & 15) case 1 => Te3Row1(i & 15) case 2 => Te3Row2(i & 15) case 3 => Te3Row3(i & 15)
    case 4 => Te3Row4(i & 15) case 5 => Te3Row5(i & 15) case 6 => Te3Row6(i & 15) case 7 => Te3Row7(i & 15)
    case 8 => Te3Row8(i & 15) case 9 => Te3Row9(i & 15) case 10 => Te3RowA(i & 15) case 11 => Te3RowB(i & 15)
    case 12 => Te3RowC(i & 15) case 13 => Te3RowD(i & 15) case 14 => Te3RowE(i & 15) case _ => Te3RowF(i & 15)
  }

  function Te4Row0(c: bv8): bv32 {
    match c
    case 0 => 0x63636363 case 1 => 0x7c7c7c7c case 2 => 0x77777777 case 3 => 0x7b7b7b7b
    case 4 => 0xf2f2f2f2 case 5 => 0x6b6b6b6b case 6 => 0x6f6f6f6f case 7 => 0xc5c5c5c5
    case 8 => 0x30303030 case 9 => 0x01010101 case 10 => 0x67676767 case 11 => 0x2b2b2b2b
    case 12 => 0xfefefefe case 13 => 0xd7d7d7d7 case 14 => 0xabababab case _ => 0x76767676
  }

  function Te4Row1(c: bv8): bv32 {
    match c
    case 0 => 0xcacacaca case 1 => 0x82828282 case 2 => 0xc9c9c9c9 case 3 => 0x7d7d7d7d
    case 4 => 0xfafafafa case 5 => 0x59595959 case 6 => 0x47474747 case 7 => 0xf0f0f0f0
    case 8 => 0xadadadad case 9 => 0xd4d4d4d4 case 10 => 0xa2a2a2a2 case 11 => 0xafafafaf
    case 12 => 0x9c9c9c9c case 13 => 0xa4a4a4a4 case 14 => 0x72727272 case _ => 0xc0c0c0c0
  }

  function Te4Row2(c: bv8): bv32 {
    match c
    case 0 => 0xb7b7b7b7 case 1 => 0xfdfdfdfd case 2 => 0x93939393 case 3 => 0x26262626
    case 4 => 0x36363636 case 5 => 0x3f3f3f3f case 6 => 0xf7f7f7f7 case 7 => 0xcccccccc
    case 8 => 0x34343434 case 9 => 0xa5a5a5a5 case 10 => 0xe5e5e5e5 case 11 => 0xf1f1f1f1
    case 12 => 0x71717171 case 13 => 0xd8d8d8d8 case 14 => 0x31313131 case _ => 0x15151515
  }

  function Te4Row3(c: bv8): bv32 {
    match c
    case 0 => 0x04040404 case 1 => 0xc7c7c7c7 case 2 => 0x23232323 case 3 => 0xc3c3c3c3
    case 4 => 0x18181818 case 5 => 0x96969696 case 6 => 0x05050505 case 7 => 0x9a9a9a9a
    case 8 => 0x07070707 case 9 => 0x12121212 case 10 => 0x80808080 case 11 => 0xe2e2e2e2
    case 12 => 0xebebebeb case 13 => 0x27272727 case 14 => 0xb2b2b2b2 case _ => 0x75757575
  }

  function Te4Row4(c: bv8): bv32 {
    match c
    case 0 => 0x09090909 case 1 => 0x83838383 case 2 => 0x2c2c2c2c case 3 => 0x1a1a1a1a
    case 4 => 0x1b1b1b1b case 5 => 0x6e6e6e6e case 6 => 0x5a5a5a5a case 7 => 0xa0a0a0a0
    case 8 => 0x52525252 case 9 => 0x3b3b3b3b case 10 => 0xd6d6d6d6 case 11 => 0xb3b3b3b3
    case 12 => 0x29292929 case 13 => 0xe3e3e3e3 case 14 => 0x2f2f2f2f case _ => 0x84848484
  }

  function Te4Row5(c: bv8): bv32 {
    match c
    case 0 => 0x53535353 case 1 => 0xd1d1d1d1 case 2 => 0x00000000 case 3 => 0xedededed
    case 4 => 0x20202020 case 5 => 0xfcfcfcfc case 6 => 0xb1b1b1b1 case 7 => 0x5b5b5b5b
    case 8 => 0x6a6a6a6a case 9 => 0xcbcbcbcb case 10 => 0xbebebebe case 11 => 0x39393939
    case 12 => 0x4a4a4a4a case 13 => 0x4c4c4c4c case 14 => 0x58585858 case _ => 0xcfcfcfcf
  }

  function Te4Row6(c: bv8): bv32 {
    match c
    case 0 => 0xd0d0d0d0 case 1 => 0xefefefef case 2 => 0xaaaaaaaa case 3 => 0xfbfbfbfb
    case 4 => 0x43434343 case 5 => 0x4d4d4d4d case 6 => 0x33333333 case 7 => 0x85858585
    case 8 => 0x45454545 case 9 => 0xf9f9f9f9 case 10 => 0x02020202 case 11 => 0x7f7f7f7f
    case 12 => 0x50505050 case 13 => 0x3c3c3c3c case 14 => 0x9f9f9f9f case _ => 0xa8a8a8a8
  }

  function Te4Row7(c: bv8): bv32 {
    match c
    case 0 => 0x51515151 case 1 => 0xa3a3a3a3 case 2 => 0x40404040 case 3 => 0x8f8f8f8f
    case 4 => 0x92929292 case 5 => 0x9d9d9d9d case 6 => 0x38383838 case 7 => 0xf5f5f5f5
    case 8 => 0xbcbcbcbc case 9 => 0xb6b6b6b6 case 10 => 0xdadadada case 11 => 0x21212121
    case 12 => 0x10101010 case 13 => 0xffffffff case 14 => 0xf3f3f3f3 case _ => 0xd2d2d2d2
  }

  function Te4Row8(c: bv8): bv32 {
    match c
    case 0 => 0xcdcdcdcd case 1 => 0x0c0c0c0c case 2 => 0x13131313 case 3 => 0xecececec
    case 4 => 0x5f5f5f5f case 5 => 0x97979797 case 6 => 0x44444444 case 7 => 0x17171717
    case 8 => 0xc4c4c4c4 case 9 => 0xa7a7a7a7 case 10 => 0x7e7e7e7e case 11 => 0x3d3d3d3d
    case 12 => 0x64646464 case 13 => 0x5d5d5d5d case 14 => 0x19191919 case _ => 0x73737373
  }

  function Te4Row9(c: bv8): bv32 {
    match c
    case 0 => 0x60606060 case 1 => 0x81818181 case 2 => 0x4f4f4f4f case 3 => 0xdcdcdcdc
    case 4 => 0x22222222 case 5 => 0x2a2a2a2a case 6 => 0x90909090 case 7 => 0x88888888
    case 8 => 0x46464646 case 9 => 0xeeeeeeee case 10 => 0xb8b8b8b8 case 11 => 0x14141414
    case 12 => 0xdededede case 13 => 0x5e5e5e5e case 14 => 0x0b0b0b0b case _ => 0xdbdbdbdb
  }

  function Te4RowA(c: bv8): bv32 {
    match c
    case 0 => 0xe0e0e0e0 case 1 => 0x32323232 case 2 => 0x3a3a3a3a case 3 => 0x0a0a0a0a
    case 4 => 0x49494949 case 5 => 0x06060606 case 6 => 0x24242424 case 7 => 0x5c5c5c5c
    case 8 => 0xc2c2c2c2 case 9 => 0xd3d3d3d3 case 10 => 0xacacacac case 11 => 0x62626262
    case 12 => 0x91919191 case 13 => 0x95959595 case 14 => 0xe4e4e4e4 case _ => 0x79797979
  }

  function Te4RowB(c: bv8): bv32 {
    match c
    case 0 => 0xe7e7e7e7 case 1 => 0xc8c8c8c8 case 2 => 0x37373737 case 3 => 0x6d6d6d6d
    case 4 => 0x8d8d8d8d case 5 => 0xd5d5d5d5 case 6 => 0x4e4e4e4e case 7 => 0xa9a9a9a9
    case 8 => 0x6c6c6c6c case 9 => 0x56565656 case 10 => 0xf4f4f4f4 case 11 => 0xeaeaeaea
    case 12 => 0x65656565 case 13 => 0x7a7a7a7a case 14 => 0xaeaeaeae case _ => 0x08080808
  }

  function Te4RowC(c: bv8): bv32 {
    match c
    case 0 => 0xbabababa case 1 => 0x78787878 case 2 => 0x25252525 case 3 => 0x2e2e2e2e
    case 4 => 0x1c1c1c1c case 5 => 0xa6a6a6a6 case 6 => 0xb4b4b4b4 case 7 => 0xc6c6c6c6
    case 8 => 0xe8e8e8e8 case 9 => 0xdddddddd case 10 => 0x74747474 case 11 => 0x1f1f1f1f
    case 12 => 0x4b4b4b4b case 13 => 0xbdbdbdbd case 14 => 0x8b8b8b8b case _ => 0x8a8a8a8a
  }

  function Te4RowD(c: bv8): bv32 {
    match c
    case 0 => 0x70707070 case 1 => 0x3e3e3e3e case 2 => 0xb5b5b5b5 case 3 => 0x66666666
    case 4 => 0x48484848 case 5 => 0x03030303 case 6 => 0xf6f6f6f6 case 7 => 0x0e0e0e0e
    case 8 => 0x61616161 case 9 => 0x35353535 case 10 => 0x57575757 case 11 => 0xb9b9b9b9
    case 12 => 0x86868686 case 13 => 0xc1c1c1c1 case 14 => 0x1d1d1d1d case _ => 0x9e9e9e9e
  }

  function Te4RowE(c: bv8): bv32 {
    match c
    case 0 => 0xe1e1e1e1 case 1 => 0xf8f8f8f8 case 2 => 0x98989898 case 3 => 0x11111111
    case 4 => 0x69696969 case 5 => 0xd9d9d9d9 case 6 => 0x8e8e8e8e case 7 => 0x94949494
    case 8 => 0x9b9b9b9b case 9 => 0x1e1e1e1e case 10 => 0x87878787 case 11 => 0xe9e9e9e9
    case 12 => 0xcececece case 13 => 0x55555555 case 14 => 0x28282828 case _ => 0xdfdfdfdf
  }

  function Te4RowF(c: bv8): bv32 {
    match c
    case 0 => 0x8c8c8c8c case 1 => 0xa1a1a1a1 case 2 => 0x89898989 case 3 => 0x0d0d0d0d
    case 4 => 0xbfbfbfbf case 5 => 0xe6e6e6e6 case 6 => 0x42424242 case 7 => 0x68686868
    case 8 => 0x41414141 case 9 => 0x99999999 case 10 => 0x2d2d2d2d case 11 => 0x0f0f0f0f
    case 12 => 0xb0b0b0b0 case 13 => 0x54545454 case 14 => 0xbbbbbbbb case _ => 0x16161616
  }

  function Te4(i: bv8): bv32 {
    match i >> 4
    case 0 => Te4Row0(i & 15) case 1 => Te4Row1(i & 15) case 2 => Te4Row2(i & 15) case 3 => Te4Row3(i & 15)
    case 4 => Te4Row4(i & 15) case 5 => Te4Row5(i & 15) case 6 => Te4Row6(i & 15) case 7 => Te4Row7(i & 15)
    case 8 => Te4Row8(i & 15) case 9 => Te4Row9(i & 15) case 10 => Te4RowA(i & 15) case 11 => Te4RowB(i & 15)
    case 12 => Te4RowC(i & 15) case 13 => Te4RowD(i & 15) case 14 => Te4RowE(i & 15) case _ => Te4RowF(i & 15)
  }

  /** The S-box: any of the four equal bytes of a Te4 entry. */
  function SBox(x: bv8): bv8 {
    (Te4(x) & 0xff) as bv8
  }

  /** Te4 repeats the S-box, Te0 holds a MixColumns column of it, Te1 to Te3 the same column rotated, and
      undoing the affine step of the S-box leaves the multiplicative inverse. */
  predicate EntryIsRight(x: bv8) {
    var s := SBox(x);
    && Te4(x) == Word(s, s, s, s)
    && Te0(x) == Word(XTime(s), s, s, XTime(s) ^ s)
    && Te1(x) == Word(XTime(s) ^ s, XTime(s), s, s)
    && Te2(x) == Word(s, XTime(s) ^ s, XTime(s), s)
    && Te3(x) == Word(s, s, XTime(s) ^ s, XTime(s))
    && (if x == 0 then Unaffine(s) == 0 else Times(x, Unaffine(s)) == 1)
  }

  // The first row holds the entry of 0, which has no inverse, and is taken column by column.
  lemma Row0Te0(x: bv8)
    requires x >> 4 == 0
    ensures Te0(x) == Word(XTime(SBox(x)), SBox(x), SBox(x), XTime(SBox(x)) ^ SBox(x))
  {}

  lemma Row0Te1(x: bv8)
    requires x >> 4 == 0
    ensures Te1(x) == Word(XTime(SBox(x)) ^ SBox(x), XTime(SBox(x)), SBox(x), SBox(x))
  {}

  lemma Row0Te2(x: bv8)
    requires x >> 4 == 0
    ensures Te2(x) == Word(SBox(x), XTime(SBox(x)) ^ SBox(x), XTime(SBox(x)), SBox(x))
  {}

  lemma Row0Te3(x: bv8)
    requires x >> 4 == 0
    ensures Te3(x) == Word(SBox(x), SBox(x), XTime(SBox(x)) ^ SBox(x), XTime(SBox(x)))
  {}

  lemma Row0Te4(x: bv8)
    requires x >> 4 == 0
    ensures Te4(x) == Word(SBox(x), SBox(x), SBox(x), SBox(x))
  {}

  lemma Row0Inverse(x: bv8)
    requires x >> 4 == 0
    ensures if x == 0 then Unaffine(SBox(x)) == 0 else Times(x, Unaffine(SBox(x))) == 1
  {}

  lemma Row0(x: bv8)
    requires x >> 4 == 0
    ensures EntryIsRight(x)
  {
    hide Te0, Te1, Te2, Te3, Te4, SBox, Word, XTime, Times, Unaffine;
    Row0Te0(x);
    Row0Te1(x);
    Row0Te2(x);
    Row0Te3(x);
    Row0Te4(x);
    Row0Inverse(x);
  }

  lemma Row1(x: bv8)
    requires x >> 4 == 1
    ensures EntryIsRight(x)
  {}

  lemma Row2(x: bv8)
    requires x >> 4 == 2
    ensures EntryIsRight(x)
  {}

  lemma Row3(x: bv8)
    requires x >> 4 == 3
    ensures EntryIsRight(x)
  {}

  lemma Row4(x: bv8)
    requires x >> 4 == 4
    ensures EntryIsRight(x)
  {}

  lemma Row5(x: bv8)
    requires x >> 4 == 5
    ensures EntryIsRight(x)
  {}

  lemma Row6(x: bv8)
    requires x >> 4 == 6
    ensures EntryIsRight(x)
  {}

  lemma Row7(x: bv8)
    requires x >> 4 == 7
    ensures EntryIsRight(x)
  {}

  lemma Row8(x: bv8)
    requires x >> 4 == 8
    ensures EntryIsRight(x)
  {}

  lemma Row9(x: bv8)
    requires x >> 4 == 9
    ensures EntryIsRight(x)
  {}

  lemma RowA(x: bv8)
    requires x >> 4 == 10
    ensures EntryIsRight(x)
  {}

  lemma RowB(x: bv8)
    requires x >> 4 == 11
    ensures EntryIsRight(x)
  {}

  lemma RowC(x: bv8)
    requires x >> 4 == 12
    ensures EntryIsRight(x)
  {}

  lemma RowD(x: bv8)
    requires x >> 4 == 13
    ensures EntryIsRight(x)
  {}

  lemma RowE(x: bv8)
    requires x >> 4 == 14
    ensures EntryIsRight(x)
  {}

  lemma RowF(x: bv8)
    requires x >> 4 == 15
    ensures EntryIsRight(x)
  {}

  lemma EntriesAreRight(x: bv8)
    ensures EntryIsRight(x)
  {
    hide EntryIsRight;
    match x >> 4
    case 0 => Row0(x);
    case 1 => Row1(x);
    case 2 => Row2(x);
    case 3 => Row3(x);
    case 4 => Row4(x);
    case 5 => Row5(x);
    case 6 => Row6(x);
    case 7 => Row7(x);
    case 8 => Row8(x);
    case 9 => Row9(x);
    case 10 => RowA(x);
    case 11 => RowB(x);
    case 12 => RowC(x);
    case 13 => RowD(x);
    case 14 => RowE(x);
    case _ => RowF(x);
  }

  /** Section 5.1.1 of FIPS 197: the S-box is the affine image of the multiplicative inverse, zero standing for its own. */
  lemma SBoxIsAffineInverse(x: bv8)
    ensures exists z :: SBox(x) == Affine(z) && (if x == 0 then z == 0 else Times(x, z) == 1)
  {
    hide Times, SBox;
    EntriesAreRight(x);
    AffineUnaffine(SBox(x));
  }
}
