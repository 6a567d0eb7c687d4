/**
 * The standard's one-block example: the digest of "abc", through all 64 rounds. A message schedule,
 * a round or a padding wired differently would end elsewhere.
 */
module Sha256Example {
  import opened Bytes
  import opened Outcomes
  import opened Sha256
  import opened Sha256Constants

  const ABC: Bytes := [97, 98, 99]

  /** The message, the marker, zeros, and the length of 24 bits in the last of eight bytes. */
  predicate IsPaddedAbc(b: Block) {
    && b[0] == 97 && b[1] == 98 && b[2] == 99 && b[3] == 0x80 && b[63] == 24
    && forall i :: 4 <= i < 63 ==> b[i] == 0
  }

  // ---------- the message schedule ----------

  lemma WordsOfAbc()
    ensures MessageWord(97, 98, 99, 0x80) == 0x61626380 && MessageWord(0, 0, 0, 0) == 0
    ensures MessageWord(0, 0, 0, 24) == 24
  {
  }

  lemma Words0To15(b: Block)
    requires IsPaddedAbc(b)
    ensures Schedule(b, 0) == 0x61626380 && Schedule(b, 1) == 0x00000000
    ensures Schedule(b, 2) == 0x00000000 && Schedule(b, 3) == 0x00000000
    ensures Schedule(b, 4) == 0x00000000 && Schedule(b, 5) == 0x00000000
    ensures Schedule(b, 6) == 0x00000000 && Schedule(b, 7) == 0x00000000
    ensures Schedule(b, 8) == 0x00000000 && Schedule(b, 9) == 0x00000000
    ensures Schedule(b, 10) == 0x00000000 && Schedule(b, 11) == 0x00000000
    ensures Schedule(b, 12) == 0x00000000 && Schedule(b, 13) == 0x00000000
    ensures Schedule(b, 14) == 0x00000000 && Schedule(b, 15) == 0x00000018
  {
    hide MessageWord, Schedule;
    WordsOfAbc();
    ScheduleStarts(b, 0);
    ScheduleStarts(b, 1);
    ScheduleStarts(b, 2);
    ScheduleStarts(b, 3);
    ScheduleStarts(b, 4);
    ScheduleStarts(b, 5);
    ScheduleStarts(b, 6);
    ScheduleStarts(b, 7);
    ScheduleStarts(b, 8);
    ScheduleStarts(b, 9);
    ScheduleStarts(b, 10);
    ScheduleStarts(b, 11);
    ScheduleStarts(b, 12);
    ScheduleStarts(b, 13);
    ScheduleStarts(b, 14);
    ScheduleStarts(b, 15);
  }

  lemma Words16To23(b: Block)
    requires IsPaddedAbc(b)
    ensures Schedule(b, 16) == 0x61626380 && Schedule(b, 17) == 0x000f0000
    ensures Schedule(b, 18) == 0x7da86405 && Schedule(b, 19) == 0x600003c6
    ensures Schedule(b, 20) == 0x3e9d7b78 && Schedule(b, 21) == 0x0183fc00
    ensures Schedule(b, 22) == 0x12dcbfdb && Schedule(b, 23) == 0xe2e2c38e
  {
    hide Expand, Schedule, IsPaddedAbc;
    Words0To15(b);
    ScheduleExpands(b, 16);
    ScheduleExpands(b, 17);
    ScheduleExpands(b, 18);
    ScheduleExpands(b, 19);
    ScheduleExpands(b, 20);
    ScheduleExpands(b, 21);
    ScheduleExpands(b, 22);
    ScheduleExpands(b, 23);
    Expansions16To23();
  }

  lemma Expansions16To23()
    ensures Expand(0x00000000, 0x00000000, 0x00000000, 0x61626380) == 0x61626380
    ensures Expand(0x00000018, 0x00000000, 0x00000000, 0x00000000) == 0x000f0000
    ensures Expand(0x61626380, 0x00000000, 0x00000000, 0x00000000) == 0x7da86405
    ensures Expand(0x000f0000, 0x00000000, 0x00000000, 0x00000000) == 0x600003c6
    ensures Expand(0x7da86405, 0x00000000, 0x00000000, 0x00000000) == 0x3e9d7b78
    ensures Expand(0x600003c6, 0x00000000, 0x00000000, 0x00000000) == 0x0183fc00
    ensures Expand(0x3e9d7b78, 0x00000018, 0x00000000, 0x00000000) == 0x12dcbfdb
    ensures Expand(0x0183fc00, 0x61626380, 0x00000000, 0x00000000) == 0xe2e2c38e
  {
  }

  lemma Words24To31(b: Block)
    requires IsPaddedAbc(b)
    ensures Schedule(b, 24) == 0xc8215c1a && Schedule(b, 25) == 0xb73679a2
    ensures Schedule(b, 26) == 0xe5bc3909 && Schedule(b, 27) == 0x32663c5b
    ensures Schedule(b, 28) == 0x9d209d67 && Schedule(b, 29) == 0xec8726cb
    ensures Schedule(b, 30) == 0x702138a4 && Schedule(b, 31) == 0xd3b7973b
  {
    hide Expand, Schedule, IsPaddedAbc;
    Words0To15(b);
    Words16To23(b);
    ScheduleExpands(b, 24);
    ScheduleExpands(b, 25);
    ScheduleExpands(b, 26);
    ScheduleExpands(b, 27);
    ScheduleExpands(b, 28);
    ScheduleExpands(b, 29);
    ScheduleExpands(b, 30);
    ScheduleExpands(b, 31);
    Expansions24To31();
  }

  lemma Expansions24To31()
    ensures Expand(0x12dcbfdb, 0x000f0000, 0x00000000, 0x00000000) == 0xc8215c1a
    ensures Expand(0xe2e2c38e, 0x7da86405, 0x00000000, 0x00000000) == 0xb73679a2
    ensures Expand(0xc8215c1a, 0x600003c6, 0x00000000, 0x00000000) == 0xe5bc3909
    ensures Expand(0xb73679a2, 0x3e9d7b78, 0x00000000, 0x00000000) == 0x32663c5b
    ensures Expand(0xe5bc3909, 0x0183fc00, 0x00000000, 0x00000000) == 0x9d209d67
    ensures Expand(0x32663c5b, 0x12dcbfdb, 0x00000000, 0x00000000) == 0xec8726cb
    ensures Expand(0x9d209d67, 0xe2e2c38e, 0x00000018, 0x00000000) == 0x702138a4
    ensures Expand(0xec8726cb, 0xc8215c1a, 0x61626380, 0x00000018) == 0xd3b7973b
  {
  }

  lemma Words32To39(b: Block)
    requires IsPaddedAbc(b)
    ensures Schedule(b, 32) == 0x93f5997f && Schedule(b, 33) == 0x3b68ba73
    ensures Schedule(b, 34) == 0xaff4ffc1 && Schedule(b, 35) == 0xf10a5c62
    ensures Schedule(b, 36) == 0x0a8b3996 && Schedule(b, 37) == 0x72af830a
    ensures Schedule(b, 38) == 0x9409e33e && Schedule(b, 39) == 0x24641522
  {
    hide Expand, Schedule, IsPaddedAbc;
    Words24To31(b);
    Words16To23(b);
    ScheduleExpands(b, 32);
    ScheduleExpands(b, 33);
    ScheduleExpands(b, 34);
    ScheduleExpands(b, 35);
    ScheduleExpands(b, 36);
    ScheduleExpands(b, 37);
    ScheduleExpands(b, 38);
    ScheduleExpands(b, 39);
    Expansions32To39();
  }

  lemma Expansions32To39()
    ensures Expand(0x702138a4, 0xb73679a2, 0x000f0000, 0x61626380) == 0x93f5997f
    ensures Expand(0xd3b7973b, 0xe5bc3909, 0x7da86405, 0x000f0000) == 0x3b68ba73
    ensures Expand(0x93f5997f, 0x32663c5b, 0x600003c6, 0x7da86405) == 0xaff4ffc1
    ensures Expand(0x3b68ba73, 0x9d209d67, 0x3e9d7b78, 0x600003c6) == 0xf10a5c62
    ensures Expand(0xaff4ffc1, 0xec8726cb, 0x0183fc00, 0x3e9d7b78) == 0x0a8b3996
    ensures Expand(0xf10a5c62, 0x702138a4, 0x12dcbfdb, 0x0183fc00) == 0x72af830a
    ensures Expand(0x0a8b3996, 0xd3b7973b, 0xe2e2c38e, 0x12dcbfdb) == 0x9409e33e
    ensures Expand(0x72af830a, 0x93f5997f, 0xc8215c1a, 0xe2e2c38e) == 0x24641522
  {
  }

  lemma Words40To47(b: Block)
    requires IsPaddedAbc(b)
    ensures Schedule(b, 40) == 0x9f47bf94 && Schedule(b, 41) == 0xf0a64f5a
    ensures Schedule(b, 42) == 0x3e246a79 && Schedule(b, 43) == 0x27333ba3
    ensures Schedule(b, 44) == 0x0c4763f2 && Schedule(b, 45) == 0x840abf27
    ensures Schedule(b, 46) == 0x7a290d5d && Schedule(b, 47) == 0x065c43da
  {
    hide Expand, Schedule, IsPaddedAbc;
    Words32To39(b);
    Words24To31(b);
    ScheduleExpands(b, 40);
    ScheduleExpands(b, 41);
    ScheduleExpands(b, 42);
    ScheduleExpands(b, 43);
    ScheduleExpands(b, 44);
    ScheduleExpands(b, 45);
    ScheduleExpands(b, 46);
    ScheduleExpands(b, 47);
    Expansions40To47();
  }

  lemma Expansions40To47()
    ensures Expand(0x9409e33e, 0x3b68ba73, 0xb73679a2, 0xc8215c1a) == 0x9f47bf94
    ensures Expand(0x24641522, 0xaff4ffc1, 0xe5bc3909, 0xb73679a2) == 0xf0a64f5a
    ensures Expand(0x9f47bf94, 0xf10a5c62, 0x32663c5b, 0xe5bc3909) == 0x3e246a79
    ensures Expand(0xf0a64f5a, 0x0a8b3996, 0x9d209d67, 0x32663c5b) == 0x27333ba3
    ensures Expand(0x3e246a79, 0x72af830a, 0xec8726cb, 0x9d209d67) == 0x0c4763f2
    ensures Expand(0x27333ba3, 0x9409e33e, 0x702138a4, 0xec8726cb) == 0x840abf27
    ensures Expand(0x0c4763f2, 0x24641522, 0xd3b7973b, 0x702138a4) == 0x7a290d5d
    ensures Expand(0x840abf27, 0x9f47bf94, 0x93f5997f, 0xd3b7973b) == 0x065c43da
  {
  }

  lemma Words48To55(b: Block)
    requires IsPaddedAbc(b)
    ensures Schedule(b, 48) == 0xfb3e89cb && Schedule(b, 49) == 0xcc7617db
    ensures Schedule(b, 50) == 0xb9e66c34 && Schedule(b, 51) == 0xa9993667
    ensures Schedule(b, 52) == 0x84badedd && Schedule(b, 53) == 0xc21462bc
    ensures Schedule(b, 54) == 0x1487472c && Schedule(b, 55) == 0xb20f7a99
  {
    hide Expand, Schedule, IsPaddedAbc;
    Words40To47(b);
    Words32To39(b);
    ScheduleExpands(b, 48);
    ScheduleExpands(b, 49);
    ScheduleExpands(b, 50);
    ScheduleExpands(b, 51);
    ScheduleExpands(b, 52);
    ScheduleExpands(b, 53);
    ScheduleExpands(b, 54);
    ScheduleExpands(b, 55);
    Expansions48To55();
  }

  lemma Expansions48To55()
    ensures Expand(0x7a290d5d, 0xf0a64f5a, 0x3b68ba73, 0x93f5997f) == 0xfb3e89cb
    ensures Expand(0x065c43da, 0x3e246a79, 0xaff4ffc1, 0x3b68ba73) == 0xcc7617db
    ensures Expand(0xfb3e89cb, 0x27333ba3, 0xf10a5c62, 0xaff4ffc1) == 0xb9e66c34
    ensures Expand(0xcc7617db, 0x0c4763f2, 0x0a8b3996, 0xf10a5c62) == 0xa9993667
    ensures Expand(0xb9e66c34, 0x840abf27, 0x72af830a, 0x0a8b3996) == 0x84badedd
    ensures Expand(0xa9993667, 0x7a290d5d, 0x9409e33e, 0x72af830a) == 0xc21462bc
    ensures Expand(0x84badedd, 0x065c43da, 0x24641522, 0x9409e33e) == 0x1487472c
    ensures Expand(0xc21462bc, 0xfb3e89cb, 0x9f47bf94, 0x24641522) == 0xb20f7a99
  {
  }

  lemma Words56To63(b: Block)
    requires IsPaddedAbc(b)
    ensures Schedule(b, 56) == 0xef57b9cd && Schedule(b, 57) == 0xebe6b238
    ensures Schedule(b, 58) == 0x9fe3095e && Schedule(b, 59) == 0x78bc8d4b
    ensures Schedule(b, 60) == 0xa43fcf15 && Schedule(b, 61) == 0x668b2ff8
    ensures Schedule(b, 62) == 0xeeaba2cc && Schedule(b, 63) == 0x12b1edeb
  {
    hide Expand, Schedule, IsPaddedAbc;
    Words48To55(b);
    Words40To47(b);
    ScheduleExpands(b, 56);
    ScheduleExpands(b, 57);
    ScheduleExpands(b, 58);
    ScheduleExpands(b, 59);
    ScheduleExpands(b, 60);
    ScheduleExpands(b, 61);
    ScheduleExpands(b, 62);
    ScheduleExpands(b, 63);
    Expansions56To63();
  }

  lemma Expansions56To63()
    ensures Expand(0x1487472c, 0xcc7617db, 0xf0a64f5a, 0x9f47bf94) == 0xef57b9cd
    ensures Expand(0xb20f7a99, 0xb9e66c34, 0x3e246a79, 0xf0a64f5a) == 0xebe6b238
    ensures Expand(0xef57b9cd, 0xa9993667, 0x27333ba3, 0x3e246a79) == 0x9fe3095e
    ensures Expand(0xebe6b238, 0x84badedd, 0x0c4763f2, 0x27333ba3) == 0x78bc8d4b
    ensures Expand(0x9fe3095e, 0xc21462bc, 0x840abf27, 0x0c4763f2) == 0xa43fcf15
    ensures Expand(0x78bc8d4b, 0x1487472c, 0x7a290d5d, 0x840abf27) == 0x668b2ff8
    ensures Expand(0xa43fcf15, 0xb20f7a99, 0x065c43da, 0x7a290d5d) == 0xeeaba2cc
    ensures Expand(0x668b2ff8, 0xef57b9cd, 0xfb3e89cb, 0x065c43da) == 0x12b1edeb
  {
  }

  // ---------- the rounds ----------

  lemma NextRound(b: Block, n: nat)
    requires n < 64
    ensures Rounds(INITIAL, b, n + 1) == Round(Rounds(INITIAL, b, n), RoundConstant(n), Schedule(b, n))
  {
    hide Round, RoundConstant, Schedule;
  }

  /** Eight rounds on given constants and words. */
  function EightRounds(r: Registers, k: seq<Word>, w: seq<Word>): Registers
    requires |k| == |w| == 8
  {
    Round(Round(Round(Round(Round(Round(Round(Round(r, k[0], w[0]), k[1], w[1]), k[2], w[2]), k[3], w[3]),
      k[4], w[4]), k[5], w[5]), k[6], w[6]), k[7], w[7])
  }

  lemma Rounds0To7(b: Block)
    requires IsPaddedAbc(b)
    ensures Rounds(INITIAL, b, 8)
            == Registers(0x85a07b5f, 0xe5030380, 0x2b4209f5, 0x04409a6a,
                 0x0c657a79, 0x9b27a401, 0x714260ad, 0x43ada245)
  {
    hide Schedule, RoundConstant, Rounds, IsPaddedAbc, Round;
    NoRounds(b);
    Words0To15(b);
    Constants1To8();
    NextRound(b, 0);
    NextRound(b, 1);
    NextRound(b, 2);
    NextRound(b, 3);
    NextRound(b, 4);
    NextRound(b, 5);
    NextRound(b, 6);
    NextRound(b, 7);
    Values0To7();
  }

  lemma Values0To7()
    ensures EightRounds(Registers(0x6a09e667, 0xbb67ae85, 0x3c6ef372, 0xa54ff53a,
                        0x510e527f, 0x9b05688c, 0x1f83d9ab, 0x5be0cd19),
              [0x428a2f98, 0x71374491, 0xb5c0fbcf, 0xe9b5dba5, 0x3956c25b, 0x59f111f1, 0x923f82a4, 0xab1c5ed5],
              [0x61626380, 0x00000000, 0x00000000, 0x00000000, 0x00000000, 0x00000000, 0x00000000, 0x00000000])
            == Registers(0x85a07b5f, 0xe5030380, 0x2b4209f5, 0x04409a6a,
                 0x0c657a79, 0x9b27a401, 0x714260ad, 0x43ada245)
  {
  }

  lemma Rounds8To15(b: Block)
    requires IsPaddedAbc(b)
    ensures Rounds(INITIAL, b, 16)
            == Registers(0xb0fa238e, 0xc0645fde, 0xd932eb16, 0x87912990,
                 0x07590dcd, 0x0b92f20c, 0x745a48de, 0x1e578218)
  {
    hide Schedule, RoundConstant, Rounds, IsPaddedAbc, Round;
    Rounds0To7(b);
    Words0To15(b);
    Constants9To16();
    NextRound(b, 8);
    NextRound(b, 9);
    NextRound(b, 10);
    NextRound(b, 11);
    NextRound(b, 12);
    NextRound(b, 13);
    NextRound(b, 14);
    NextRound(b, 15);
    Values8To15();
  }

  lemma Values8To15()
    ensures EightRounds(Registers(0x85a07b5f, 0xe5030380, 0x2b4209f5, 0x04409a6a,
                        0x0c657a79, 0x9b27a401, 0x714260ad, 0x43ada245),
              [0xd807aa98, 0x12835b01, 0x243185be, 0x550c7dc3, 0x72be5d74, 0x80deb1fe, 0x9bdc06a7, 0xc19bf174],
              [0x00000000, 0x00000000, 0x00000000, 0x00000000, 0x00000000, 0x00000000, 0x00000000, 0x00000018])
            == Registers(0xb0fa238e, 0xc0645fde, 0xd932eb16, 0x87912990,
                 0x07590dcd, 0x0b92f20c, 0x745a48de, 0x1e578218)
  {
  }

  lemma Rounds16To23(b: Block)
    requires IsPaddedAbc(b)
    ensures Rounds(INITIAL, b, 24)
            == Registers(0xc5d53d8d, 0xa7a3623f, 0xc2606d6d, 0x9dc68b63,
                 0xaa47c347, 0x49f5114a, 0xe1257970, 0x8ada8930)
  {
    hide Schedule, RoundConstant, Rounds, IsPaddedAbc, Round;
    Rounds8To15(b);
    Words16To23(b);
    Constants17To24();
    NextRound(b, 16);
    NextRound(b, 17);
    NextRound(b, 18);
    NextRound(b, 19);
    NextRound(b, 20);
    NextRound(b, 21);
    NextRound(b, 22);
    NextRound(b, 23);
    Values16To23();
  }

  lemma Values16To23()
    ensures EightRounds(Registers(0xb0fa238e, 0xc0645fde, 0xd932eb16, 0x87912990,
                        0x07590dcd, 0x0b92f20c, 0x745a48de, 0x1e578218),
              [0xe49b69c1, 0xefbe4786, 0x0fc19dc6, 0x240ca1cc, 0x2de92c6f, 0x4a7484aa, 0x5cb0a9dc, 0x76f988da],
              [0x61626380, 0x000f0000, 0x7da86405, 0x600003c6, 0x3e9d7b78, 0x0183fc00, 0x12dcbfdb, 0xe2e2c38e])
            == Registers(0xc5d53d8d, 0xa7a3623f, 0xc2606d6d, 0x9dc68b63,
                 0xaa47c347, 0x49f5114a, 0xe1257970, 0x8ada8930)
  {
  }

  lemma Rounds24To31(b: Block)
    requires IsPaddedAbc(b)
    ensures Rounds(INITIAL, b, 32)
            == Registers(0x73b33bf5, 0xea992a22, 0xa0060b30, 0x363482c9,
                 0xba591112, 0x0109ab3a, 0xade79437, 0x6112a3b7)
  {
    hide Schedule, RoundConstant, Rounds, IsPaddedAbc, Round;
    Rounds16To23(b);
    Words24To31(b);
    Constants25To32();
    NextRound(b, 24);
    NextRound(b, 25);
    NextRound(b, 26);
    NextRound(b, 27);
    NextRound(b, 28);
    NextRound(b, 29);
    NextRound(b, 30);
    NextRound(b, 31);
    Values24To31();
  }

  lemma Values24To31()
    ensures EightRounds(Registers(0xc5d53d8d, 0xa7a3623f, 0xc2606d6d, 0x9dc68b63,
                        0xaa47c347, 0x49f5114a, 0xe1257970, 0x8ada8930),
              [0x983e5152, 0xa831c66d, 0xb00327c8, 0xbf597fc7, 0xc6e00bf3, 0xd5a79147, 0x06ca6351, 0x14292967],
              [0xc8215c1a, 0xb73679a2, 0xe5bc3909, 0x32663c5b, 0x9d209d67, 0xec8726cb, 0x702138a4, 0xd3b7973b])
            == Registers(0x73b33bf5, 0xea992a22, 0xa0060b30, 0x363482c9,
                 0xba591112, 0x0109ab3a, 0xade79437, 0x6112a3b7)
  {
  }

  lemma Rounds32To39(b: Block)
    requires IsPaddedAbc(b)
    ensures Rounds(INITIAL, b, 40)
            == Registers(0x79ea687a, 0x6dc57a8a, 0x34df1604, 0x41a65cb1,
                 0x1efbc0a0, 0xf0781bc8, 0xa507a53d, 0x0772a26b)
  {
    hide Schedule, RoundConstant, Rounds, IsPaddedAbc, Round;
    Rounds24To31(b);
    Words32To39(b);
    Constants33To40();
    NextRound(b, 32);
    NextRound(b, 33);
    NextRound(b, 34);
    NextRound(b, 35);
    NextRound(b, 36);
    NextRound(b, 37);
    NextRound(b, 38);
    NextRound(b, 39);
    Values32To39();
  }

  lemma Values32To39()
    ensures EightRounds(Registers(0x73b33bf5, 0xea992a22, 0xa0060b30, 0x363482c9,
                        0xba591112, 0x0109ab3a, 0xade79437, 0x6112a3b7),
              [0x27b70a85, 0x2e1b2138, 0x4d2c6dfc, 0x53380d13, 0x650a7354, 0x766a0abb, 0x81c2c92e, 0x92722c85],
              [0x93f5997f, 0x3b68ba73, 0xaff4ffc1, 0xf10a5c62, 0x0a8b3996, 0x72af830a, 0x9409e33e, 0x24641522])
            == Registers(0x79ea687a, 0x6dc57a8a, 0x34df1604, 0x41a65cb1,
                 0x1efbc0a0, 0xf0781bc8, 0xa507a53d, 0x0772a26b)
  {
  }

  lemma Rounds40To47(b: Block)
    requires IsPaddedAbc(b)
    ensures Rounds(INITIAL, b, 48)
            == Registers(0x4172328d, 0xa14c14b0, 0x72ab4b91, 0x26628815,
                 0xfecf0bc6, 0xd57b94a9, 0xb7755da1, 0xa80f11f0)
  {
    hide Schedule, RoundConstant, Rounds, IsPaddedAbc, Round;
    Rounds32To39(b);
    Words40To47(b);
    Constants41To48();
    NextRound(b, 40);
    NextRound(b, 41);
    NextRound(b, 42);
    NextRound(b, 43);
    NextRound(b, 44);
    NextRound(b, 45);
    NextRound(b, 46);
    NextRound(b, 47);
    Values40To47();
  }

  lemma Values40To47()
    ensures EightRounds(Registers(0x79ea687a, 0x6dc57a8a, 0x34df1604, 0x41a65cb1,
                        0x1efbc0a0, 0xf0781bc8, 0xa507a53d, 0x0772a26b),
              [0xa2bfe8a1, 0xa81a664b, 0xc24b8b70, 0xc76c51a3, 0xd192e819, 0xd6990624, 0xf40e3585, 0x106aa070],
              [0x9f47bf94, 0xf0a64f5a, 0x3e246a79, 0x27333ba3, 0x0c4763f2, 0x840abf27, 0x7a290d5d, 0x065c43da])
            == Registers(0x4172328d, 0xa14c14b0, 0x72ab4b91, 0x26628815,
                 0xfecf0bc6, 0xd57b94a9, 0xb7755da1, 0xa80f11f0)
  {
  }

  lemma Rounds48To55(b: Block)
    requires IsPaddedAbc(b)
    ensures Rounds(INITIAL, b, 56)
            == Registers(0x38cc9913, 0x3ec45cdb, 0xf5702fdb, 0x101fd28f,
                 0x54cb266b, 0xe50e1b4f, 0x9f4787c3, 0x529e7d00)
  {
    hide Schedule, RoundConstant, Rounds, IsPaddedAbc, Round;
    Rounds40To47(b);
    Words48To55(b);
    Constants49To56();
    NextRound(b, 48);
    NextRound(b, 49);
    NextRound(b, 50);
    NextRound(b, 51);
    NextRound(b, 52);
    NextRound(b, 53);
    NextRound(b, 54);
    NextRound(b, 55);
    Values48To55();
  }

  lemma Values48To55()
    ensures EightRounds(Registers(0x4172328d, 0xa14c14b0, 0x72ab4b91, 0x26628815,
                        0xfecf0bc6, 0xd57b94a9, 0xb7755da1, 0xa80f11f0),
              [0x19a4c116, 0x1e376c08, 0x2748774c, 0x34b0bcb5, 0x391c0cb3, 0x4ed8aa4a, 0x5b9cca4f, 0x682e6ff3],
              [0xfb3e89cb, 0xcc7617db, 0xb9e66c34, 0xa9993667, 0x84badedd, 0xc21462bc, 0x1487472c, 0xb20f7a99])
            == Registers(0x38cc9913, 0x3ec45cdb, 0xf5702fdb, 0x101fd28f,
                 0x54cb266b, 0xe50e1b4f, 0x9f4787c3, 0x529e7d00)
  {
  }

  lemma Rounds56To63(b: Block)
    requires IsPaddedAbc(b)
    ensures Rounds(INITIAL, b, 64)
            == Registers(0x506e3058, 0xd39a2165, 0x04d24d6c, 0xb85e2ce9,
                 0x5ef50f24, 0xfb121210, 0x948d25b6, 0x961f4894)
  {
    hide Schedule, RoundConstant, Rounds, IsPaddedAbc, Round;
    Rounds48To55(b);
    Words56To63(b);
    Constants57To64();
    NextRound(b, 56);
    NextRound(b, 57);
    NextRound(b, 58);
    NextRound(b, 59);
    NextRound(b, 60);
    NextRound(b, 61);
    NextRound(b, 62);
    NextRound(b, 63);
    Values56To63();
  }

  lemma Values56To63()
    ensures EightRounds(Registers(0x38cc9913, 0x3ec45cdb, 0xf5702fdb, 0x101fd28f,
                        0x54cb266b, 0xe50e1b4f, 0x9f4787c3, 0x529e7d00),
              [0x748f82ee, 0x78a5636f, 0x84c87814, 0x8cc70208, 0x90befffa, 0xa4506ceb, 0xbef9a3f7, 0xc67178f2],
              [0xef57b9cd, 0xebe6b238, 0x9fe3095e, 0x78bc8d4b, 0xa43fcf15, 0x668b2ff8, 0xeeaba2cc, 0x12b1edeb])
            == Registers(0x506e3058, 0xd39a2165, 0x04d24d6c, 0xb85e2ce9,
                 0x5ef50f24, 0xfb121210, 0x948d25b6, 0x961f4894)
  {
  }

  lemma NoRounds(b: Block)
    ensures Rounds(INITIAL, b, 0) == INITIAL
  {
  }

  // ---------- the digest ----------

  lemma LengthOfAbc()
    ensures BigEndian(24, 8) == [0, 0, 0, 0, 0, 0, 0, 24]
  {
  }

  lemma PaddedIs(b: Block)
    requires b == ABC + [0x80] + ZeroBytes(52) + BigEndian(24, 8)
    ensures IsPaddedAbc(b)
  {
    hide BigEndian;
    LengthOfAbc();
  }

  lemma FinalRegisters(b: Block)
    requires IsPaddedAbc(b)
    ensures Compress(INITIAL, b)
            == Registers(0xba7816bf, 0x8f01cfea, 0x414140de, 0x5dae2223,
                0xb00361a3, 0x96177a9c, 0xb410ff61, 0xf20015ad)
  {
    hide Rounds, IsPaddedAbc;
    Rounds56To63(b);
  }

  lemma WordsWritten()

    ensures WordBytes(0xba7816bf) == [0xba, 0x78, 0x16, 0xbf]
    ensures WordBytes(0x8f01cfea) == [0x8f, 0x01, 0xcf, 0xea]
    ensures WordBytes(0x414140de) == [0x41, 0x41, 0x40, 0xde]
    ensures WordBytes(0x5dae2223) == [0x5d, 0xae, 0x22, 0x23]
    ensures WordBytes(0xb00361a3) == [0xb0, 0x03, 0x61, 0xa3]
    ensures WordBytes(0x96177a9c) == [0x96, 0x17, 0x7a, 0x9c]
    ensures WordBytes(0xb410ff61) == [0xb4, 0x10, 0xff, 0x61]
    ensures WordBytes(0xf20015ad) == [0xf2, 0x00, 0x15, 0xad]
  {
  }

  /** The example of the standard, for the hash of the whole message. */
  lemma DigestOfAbc()
    ensures Hash([97, 98, 99]) == [
              0xba, 0x78, 0x16, 0xbf, 0x8f, 0x01, 0xcf, 0xea, 0x41, 0x41, 0x40, 0xde, 0x5d, 0xae, 0x22, 0x23,
              0xb0, 0x03, 0x61, 0xa3, 0x96, 0x17, 0x7a, 0x9c, 0xb4, 0x10, 0xff, 0x61, 0xf2, 0x00, 0x15, 0xad]
  {
    hide Hash, Compress, BigEndian, ZeroBytes, WordBytes, IsPaddedAbc;
    var b := ABC + [0x80] + ZeroBytes(52) + BigEndian(24, 8);
    PaddedIs(b);
    assert ABC[..Whole(ABC)] == [] && ABC[Whole(ABC)..] == ABC;
    FinishOneBlock(ABC, b);
    FoldNone(INITIAL);
    FinalRegisters(b);
    WordsWritten();
  }
}
