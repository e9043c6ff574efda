/** Certificates for the primes that divide the numbers just above 2^31, 2^63 and 2^127. */
module PrimeCertificates {
  import opened Primality

  lemma Prime2179()
    ensures Prime(2179)
  {
    hide Prime, Residual, Reaches;
    ResidualOdd(2179);
    SmallPrime(11);
    Start(2179, 306);
    Climb2(2179, 306, 1, 306, 0, 42, 2118);
    Climb4(2179, 306, 2, 2118, 3, 264612814614803285, 1);
    ByRoot(2179, 306, 11, 1436);
    Joint(2179, 2, 11, 22);
    ByDigits(2179, 22, 4, 11);
  }

  lemma Prime3331()
    ensures Prime(3331)
  {
    hide Prime, Residual, Reaches;
    ResidualOdd(3331);
    SmallPrime(37);
    Start(3331, 42);
    Climb2(3331, 42, 1, 42, 0, 0, 1764);
    Climb4(3331, 42, 2, 1764, 1, 122086875968, 64);
    Climb4(3331, 42, 9, 64, 1, 211541, 1);
    ByRoot(3331, 42, 37, 325);
    Joint(3331, 2, 37, 74);
    BySize(3331, 74);
  }

  lemma Prime5581()
    ensures Prime(5581)
  {
    hide Prime, Residual, Reaches;
    ResidualOdd(5581);
    SmallPrime(31);
    Start(5581, 16);
    Climb4(5581, 16, 1, 16, 3, 48098, 518);
    Climb4(5581, 16, 7, 518, 3, 52840505595, 1);
    ByRoot(5581, 16, 31, 5209);
    Joint(5581, 2, 31, 62);
    ByDigits(5581, 62, 1, 28);
  }

  lemma Prime8681()
    ensures Prime(8681)
  {
    hide Prime, Residual, Reaches;
    ResidualOdd(8681);
    SmallPrime(31);
    Start(8681, 16);
    Climb4(8681, 16, 1, 16, 3, 30922, 1574);
    Climb4(8681, 16, 7, 1574, 3, 2896070326695, 1);
    ByRoot(8681, 16, 31, 2315);
    Joint(8681, 2, 31, 62);
    ByDigits(8681, 62, 2, 16);
  }

  lemma Prime14449()
    ensures Prime(14449)
  {
    hide Prime, Residual, Reaches;
    ResidualOdd(14449);
    SmallPrime(43);
    Start(14449, 565);
    Climb2(14449, 565, 1, 565, 0, 22, 1347);
    Climb4(14449, 565, 2, 1347, 2, 72732662755552, 6377);
    Climb4(14449, 565, 10, 6377, 3, 20643019382248676076, 1);
    ByRoot(14449, 565, 43, 9812);
    Joint(14449, 2, 43, 86);
    ByDigits(14449, 86, 1, 82);
  }

  lemma Prime20261()
    ensures Prime(20261)
  {
    hide Prime, Residual, Reaches;
    ResidualOdd(20261);
    SmallPrime(1013);
    Start(20261, 25);
    Climb2(20261, 25, 1, 25, 1, 0, 15625);
    Climb4(20261, 25, 3, 15625, 3, 45966268921350304, 6281);
    Climb4(20261, 25, 15, 6281, 3, 1200257208910839, 6646);
    Climb4(20261, 25, 63, 6646, 1, 2407246034139, 6121);
    Climb4(20261, 25, 253, 6121, 1, 1732082804184, 1);
    ByRoot(20261, 25, 1013, 16040);
    Joint(20261, 2, 1013, 2026);
    BySize(20261, 2026);
  }

  lemma Prime49477()
    ensures Prime(49477)
  {
    hide Prime, Residual, Reaches;
    ResidualOdd(49477);
    SmallPrime(31);
    Start(49477, 16);
    Climb4(49477, 16, 1, 16, 3, 5425, 22731);
    Climb4(49477, 16, 7, 22731, 3, 22101958402516595, 1);
    ByRoot(49477, 16, 31, 6597);
    Joint(49477, 2, 31, 62);
    ByDigits(49477, 62, 12, 54);
  }

  lemma Prime92737()
    ensures Prime(92737)
  {
    hide Prime, Residual, Reaches;
    ResidualOdd(92737);
    SmallPrime(3);
    Start(92737, 35798);
    Climb2(92737, 35798, 1, 35798, 1, 494678743, 1);
    ByRoot(92737, 35798, 3, 18979);
    Joint(92737, 2, 3, 6);
    SmallPrime(23);
    Start(92737, 1616);
    Climb4(92737, 1616, 1, 1616, 1, 118837563679, 37153);
    Climb4(92737, 1616, 5, 37153, 3, 86705486030007593216575, 1);
    ByRoot(92737, 1616, 23, 36578);
    Joint(92737, 6, 23, 138);
    ByDigits(92737, 138, 4, 120);
  }

  lemma Prime174763()
    ensures Prime(174763)
  {
    hide Prime, Residual, Reaches;
    ResidualOdd(174763);
    SmallPrime(73);
    Start(174763, 2893);
    Climb4(174763, 2893, 1, 2893, 0, 400815255, 154036);
    Climb4(174763, 2893, 4, 154036, 2, 26961019186995387609342, 119638);
    Climb4(174763, 2893, 18, 119638, 1, 3391372697382767469, 1);
    ByRoot(174763, 2893, 73, 146784);
    Joint(174763, 2, 73, 146);
    ByDigits(174763, 146, 8, 29);
  }

  lemma Prime384773()
    ensures Prime(384773)
  {
    hide Prime, Residual, Reaches;
    ResidualOdd(384773);
    SmallPrime(107);
    Start(384773, 76);
    Climb4(384773, 76, 1, 76, 2, 500814, 223354);
    Climb4(384773, 76, 6, 223354, 2, 37359197039566753568, 36192);
    Climb4(384773, 76, 26, 36192, 3, 1957431263114750515, 1);
    ByRoot(384773, 76, 107, 66694);
    Joint(384773, 2, 107, 214);
    ByDigits(384773, 214, 8, 86);
  }

  lemma Prime699053()
    ensures Prime(699053)
  {
    hide Prime, Residual, Reaches;
    ResidualOdd(699053);
    Prime174763();
    Start(699053, 16);
    Climb2(699053, 16, 1, 16, 0, 0, 256);
    Climb4(699053, 16, 2, 256, 2, 1572858, 524302);
    Climb4(699053, 16, 10, 524302, 2, 27672979347668114723, 172377);
    Climb4(699053, 16, 42, 172377, 2, 323330842496030269, 464839);
    Climb4(699053, 16, 170, 464839, 2, 17097794556179597433, 658747);
    Climb4(699053, 16, 682, 658747, 2, 68961144902497991120, 491376);
    Climb4(699053, 16, 2730, 491376, 2, 21349397538774472417, 647155);
    Climb4(699053, 16, 10922, 647155, 2, 64233724579009947485, 128295);
    Climb4(699053, 16, 43690, 128295, 3, 1587408744913176283, 1);
    ByRoot(699053, 16, 174763, 605846);
    Joint(699053, 2, 174763, 349526);
    BySize(699053, 349526);
  }

  lemma Prime1962943()
    ensures Prime(1962943)
  {
    hide Prime, Residual, Reaches;
    ResidualOdd(1962943);
    SmallPrime(479);
    Start(1962943, 10668);
    Climb4(1962943, 10668, 1, 10668, 3, 8010753355972751986415, 179887);
    Climb4(1962943, 10668, 7, 179887, 1, 5690814567348634192, 1380092);
    Climb4(1962943, 10668, 29, 1380092, 3, 2243744936967192119731663258017, 1603041);
    Climb4(1962943, 10668, 119, 1603041, 3, 4084320865380423253100590579457, 1);
    ByRoot(1962943, 10668, 479, 1442534);
    Joint(1962943, 2, 479, 958);
    ByDigits(1962943, 958, 2, 133);
  }

  lemma Prime3033169()
    ensures Prime(3033169)
  {
    hide Prime, Residual, Reaches;
    ResidualOdd(3033169);
    Prime2179();
    Start(3033169, 145);
    Climb2(3033169, 145, 1, 145, 0, 0, 21025);
    Climb4(3033169, 145, 2, 21025, 0, 64423958923, 373638);
    Climb4(3033169, 145, 8, 373638, 2, 135096329836916852798, 2247538);
    Climb4(3033169, 145, 34, 2247538, 0, 8412625658869903045, 2265531);
    Climb4(3033169, 145, 136, 2265531, 0, 8685272078596768511, 724162);
    Climb4(3033169, 145, 544, 724162, 3, 276407819450676648607071, 1);
    ByRoot(3033169, 145, 2179, 2001049);
    Joint(3033169, 2, 2179, 4358);
    BySize(3033169, 4358);
  }

  lemma Prime4370273()
    ensures Prime(4370273)
  {
    hide Prime, Residual, Reaches;
    ResidualOdd(4370273);
    Prime3331();
    Start(4370273, 1460562);
    Climb2(4370273, 1460562, 1, 1460562, 1, 712937443764, 3396756);
    Climb4(4370273, 1460562, 3, 3396756, 1, 44490658628171751435849461, 19499);
    Climb4(4370273, 1460562, 13, 19499, 0, 33078117838, 3192227);
    Climb4(4370273, 1460562, 52, 3192227, 0, 23761097650445977481, 3159528);
    Climb4(4370273, 1460562, 208, 3159528, 0, 22802384614877460713, 3406007);
    Climb4(4370273, 1460562, 832, 3406007, 3, 95947479255289654582251553080582818599, 1);
    ByRoot(4370273, 1460562, 3331, 1186983);
    Joint(4370273, 2, 3331, 6662);
    BySize(4370273, 6662);
  }

  lemma Prime43826197()
    ensures Prime(43826197)
  {
    hide Prime, Residual, Reaches;
    ResidualOdd(43826197);
    SmallPrime(3);
    Start(43826197, 1421295);
    Climb2(43826197, 1421295, 1, 1421295, 1, 65511704342, 1);
    ByRoot(43826197, 1421295, 3, 28743699);
    Joint(43826197, 2, 3, 6);
    SmallPrime(197);
    Start(43826197, 84929);
    Climb2(43826197, 84929, 1, 84929, 1, 13977652, 29947645);
    Climb4(43826197, 84929, 3, 29947645, 0, 18353416438007445105176, 39204953);
    Climb4(43826197, 84929, 12, 39204953, 1, 4578107372003527683216287180, 40233189);
    Climb4(43826197, 84929, 49, 40233189, 1, 5077618334346102180678155504, 1);
    ByRoot(43826197, 84929, 197, 32532674);
    Joint(43826197, 6, 197, 1182);
    ByDigits(43826197, 1182, 31, 436);
  }

  lemma Prime684610721()
    ensures Prime(684610721)
  {
    hide Prime, Residual, Reaches;
    ResidualOdd(684610721);
    SmallPrime(5);
    Start(684610721, 375864472);
    Climb4(684610721, 375864472, 1, 375864472, 1, 10957530478918536373993898894487711, 1);
    ByRoot(684610721, 375864472, 5, 302101994);
    Joint(684610721, 2, 5, 10);
    SmallPrime(239);
    Start(684610721, 5972586);
    Climb2(684610721, 5972586, 1, 5972586, 1, 311202831558, 592032738);
    Climb4(684610721, 5972586, 3, 592032738, 2, 6401238657362547886670508665999293857958, 613387738);
    Climb4(684610721, 5972586, 14, 613387738, 3, 44053853126826802585676106069945707705767642678, 259018378);
    Climb4(684610721, 5972586, 59, 259018378, 3, 1400766857504482124090259025242623251076546335, 1);
    ByRoot(684610721, 5972586, 239, 223066898);
    Joint(684610721, 10, 239, 2390);
    ByDigits(684610721, 2390, 119, 2038);
  }

  lemma Prime715827883()
    ensures Prime(715827883)
  {
    hide Prime, Residual, Reaches;
    ResidualOdd(715827883);
    SmallPrime(3);
    Start(715827883, 151888732);
    Climb2(715827883, 151888732, 1, 151888732, 1, 4895173155116349, 1);
    ByRoot(715827883, 151888732, 3, 665198305);
    Joint(715827883, 2, 3, 6);
    SmallPrime(331);
    Start(715827883, 1268865);
    Climb4(715827883, 1268865, 1, 1268865, 1, 4594819752966938252455, 543087860);
    Climb4(715827883, 1268865, 5, 543087860, 0, 121526717700603145828420099, 194339583);
    Climb4(715827883, 1268865, 20, 194339583, 2, 3208243264705294741538241297336936513, 681828246);
    Climb4(715827883, 1268865, 82, 681828246, 3, 616790389434515849016808129779323339494961453, 1);
    ByRoot(715827883, 1268865, 331, 418894459);
    Joint(715827883, 6, 331, 1986);
    ByDigits(715827883, 1986, 181, 971);
  }

  lemma Prime1372265723()
    ensures Prime(1372265723)
  {
    hide Prime, Residual, Reaches;
    ResidualOdd(1372265723);
    Prime4370273();
    Start(1372265723, 864724314);
    Climb4(1372265723, 864724314, 1, 864724314, 0, 407448258992268014418274897, 497739685);
    Climb4(1372265723, 864724314, 4, 497739685, 0, 44727112203723136462354436, 555803397);
    Climb4(1372265723, 864724314, 16, 555803397, 2, 51999828664970196289083255272155716485734170, 1165352166);
    Climb4(1372265723, 864724314, 66, 1165352166, 2, 1004953289996028407859654115939195675580698928, 161752112);
    Climb4(1372265723, 864724314, 266, 161752112, 2, 373006985661295333663219455889607937005411, 272350703);
    Climb4(1372265723, 864724314, 1066, 272350703, 3, 2592440505437823054740207602784811394071341891001927, 314040843);
    Climb4(1372265723, 864724314, 4267, 314040843, 3, 4582888951339864055553083680362082637287320441752795, 34178159);
    Climb4(1372265723, 864724314, 17071, 34178159, 1, 859872615822215277870939322040, 306494834);
    Climb4(1372265723, 864724314, 68285, 306494834, 2, 4808501555004414540530271061490860251912799, 408900379);
    Climb4(1372265723, 864724314, 273142, 408900379, 0, 20371914128389086829492748, 1303660077);
    Climb4(1372265723, 864724314, 1092568, 1303660077, 1, 1820106995878003195139146481225329051, 1);
    ByRoot(1372265723, 864724314, 4370273, 1075640788);
    Joint(1372265723, 2, 4370273, 8740546);
    BySize(1372265723, 8740546);
  }

  lemma Prime1868721737()
    ensures Prime(1868721737)
  {
    hide Prime, Residual, Reaches;
    ResidualOdd(1868721737);
    Prime1962943();
    Start(1868721737, 795919160);
    Climb4(1868721737, 795919160, 1, 795919160, 3, 108277464937022683035268845409758634594625926835751513, 1486261919);
    Climb4(1868721737, 795919160, 7, 1486261919, 1, 2078287970949821983570723667385014453, 1219929499);
    Climb4(1868721737, 795919160, 29, 1219929499, 3, 597587044390076921444184408519560924505323359566229794,
           1150463822);
    Climb4(1868721737, 795919160, 119, 1150463822, 3, 472665719650839284923095360763877766113792619578629735,
           1760326305);
    Climb4(1868721737, 795919160, 479, 1760326305, 0, 5138401997523407187490350766, 1777850083);
    Climb4(1868721737, 795919160, 1916, 1777850083, 3, 2695521415469070591787172969436510439588734527937417996,
           705836948);
    Climb4(1868721737, 795919160, 7667, 705836948, 2, 84141613366952642294841053127513664631131053, 479450539);
    Climb4(1868721737, 795919160, 30670, 479450539, 3, 14257306497657743034627468981148956624198205521703363,
           705434469);
    Climb4(1868721737, 795919160, 122683, 705434469, 3, 66817303745283728785887921227522876334205873376327433,
           340704879);
    Climb4(1868721737, 795919160, 490735, 340704879, 3, 3635596298356646066317257571435703421104111407864327, 1);
    ByRoot(1868721737, 795919160, 1962943, 801595319);
    Joint(1868721737, 2, 1962943, 3925886);
    BySize(1868721737, 3925886);
  }

  lemma Prime2977518503()
    ensures Prime(2977518503)
  {
    hide Prime, Residual, Reaches;
    ResidualOdd(2977518503);
    SmallPrime(7);
    Start(2977518503, 633231743);
    Climb4(2977518503, 633231743, 1, 633231743, 3, 13711478029252288175978486051265051615537407459672402, 1);
    ByRoot(2977518503, 633231743, 7, 2242290613);
    Joint(2977518503, 2, 7, 14);
    SmallPrime(157);
    Start(2977518503, 19408720);
    Climb2(2977518503, 19408720, 1, 19408720, 0, 126514, 636149858);
    Climb4(2977518503, 19408720, 2, 636149858, 1, 1067530185643993329119074690788428, 535849836);
    Climb4(2977518503, 19408720, 9, 535849836, 3, 202445731256487648406891382537319341076072649053, 615040341);
    Climb4(2977518503, 19408720, 39, 615040341, 1, 932731911519606756079556554376473, 1);
    ByRoot(2977518503, 19408720, 157, 1723529683);
    Joint(2977518503, 14, 157, 2198);
    ByDigits(2977518503, 2198, 616, 681);
  }

  lemma Prime40388473189()
    ensures Prime(40388473189)
  {
    hide Prime, Residual, Reaches;
    ResidualOdd(40388473189);
    SmallPrime(29);
    Start(40388473189, 425013003);
    Climb4(40388473189, 425013003, 1, 425013003, 3, 62023759178253827418651360173671177570402428805828, 10783395695);
    Climb4(40388473189, 425013003, 7, 10783395695, 1, 142287565541184305034877572780588497666, 1);
    ByRoot(40388473189, 425013003, 29, 38080118956);
    Joint(40388473189, 2, 29, 58);
    SmallPrime(73);
    Start(40388473189, 47762474);
    Climb4(40388473189, 47762474, 1, 47762474, 0, 128851601669318330766, 14530824202);
    Climb4(40388473189, 47762474, 4, 14530824202, 2, 2518124434093528673001224847535486530251443351, 35982248877);
    Climb4(40388473189, 47762474, 18, 35982248877, 1, 1982360296491360861092319666160137032597, 1);
    ByRoot(40388473189, 47762474, 73, 2365767623);
    Joint(40388473189, 58, 73, 4234);
    ByDigits(40388473189, 4234, 2252, 4114);
  }

  lemma Prime77158673929()
    ensures Prime(77158673929)
  {
    hide Prime, Residual, Reaches;
    ResidualOdd(77158673929);
    Prime699053();
    Start(77158673929, 19746619458);
    Climb2(77158673929, 19746619458, 1, 19746619458, 0, 5053598774, 48004050718);
    Climb4(77158673929, 19746619458, 2, 48004050718, 2, 26835661323324888648807376157084179343446891091217139,
           40744874933);
    Climb4(77158673929, 19746619458, 10, 40744874933, 2, 13928126895020237991176553866499558717040078936981051,
           73173510065);
    Climb4(77158673929, 19746619458, 42, 73173510065, 2, 144882626848925399933568849619314300800967104346339463,
           76999042373);
    Climb4(77158673929, 19746619458, 170, 76999042373, 2, 177640527589126594506031510400655528052784531121612017,
           55215993931);
    Climb4(77158673929, 19746619458, 682, 55215993931, 2, 46974301986265697287210664162572982447462383499516440,
           972584684);
    Climb4(77158673929, 19746619458, 2730, 972584684, 2, 4521790770999007872661990227264419855436300122, 53591530966);
    Climb4(77158673929, 19746619458, 10922, 53591530966, 2, 41685538290532963390958674894118822988528971685295323,
           56235050637);
    Climb4(77158673929, 19746619458, 43690, 56235050637, 3,
           997980091195775431088937794712239338213376114267838390987227162, 46419800734);
    Climb4(77158673929, 19746619458, 174763, 46419800734, 1, 1188286297175109501707550915324908207555303, 1);
    ByRoot(77158673929, 19746619458, 699053, 303426239);
    Joint(77158673929, 2, 699053, 1398106);
    BySize(77158673929, 1398106);
  }

  lemma Prime118750098349()
    ensures Prime(118750098349)
  {
    hide Prime, Residual, Reaches;
    ResidualOdd(118750098349);
    SmallPrime(73);
    Start(118750098349, 533515526);
    Climb4(118750098349, 533515526, 1, 533515526, 0, 682266852619894977299906, 24259713782);
    Climb4(118750098349, 533515526, 4, 24259713782, 2, 830238441040626976263270073551853877663445302632, 95266178808);
    Climb4(118750098349, 533515526, 18, 95266178808, 1, 370056525922233734367634352773044535867355, 1);
    ByRoot(118750098349, 533515526, 73, 97233017705);
    Joint(118750098349, 2, 73, 146);
    SmallPrime(101);
    Start(118750098349, 424276908);
    Climb4(118750098349, 424276908, 1, 424276908, 2, 49120456373039489036317163875448530232577, 4397701971);
    Climb4(118750098349, 424276908, 6, 4397701971, 1, 1336345002998374664288617119409513704, 105681196452);
    Climb4(118750098349, 424276908, 25, 105681196452, 1, 445662716250205815801354892016728861455323, 1);
    ByRoot(118750098349, 424276908, 101, 14307058379);
    Joint(118750098349, 146, 101, 14746);
    ByDigits(118750098349, 14746, 546, 1722);
  }

  lemma Prime1864388056649()
    ensures Prime(1864388056649)
  {
    hide Prime, Residual, Reaches;
    ResidualOdd(1864388056649);
    SmallPrime(13);
    Start(1864388056649, 108069530608);
    Climb2(1864388056649, 108069530608, 1, 108069530608, 1, 676976328640291339241, 252453852303);
    Climb4(1864388056649, 108069530608, 3, 252453852303, 1, 235447976125748370522393041719196029221008503, 1);
    ByRoot(1864388056649, 108069530608, 13, 1798702054162);
    Joint(1864388056649, 2, 13, 26);
    SmallPrime(19);
    Start(1864388056649, 27466809099);
    Climb4(1864388056649, 27466809099, 1, 27466809099, 0, 305278714399260477682995854649, 519023612400);
    Climb4(1864388056649, 27466809099, 4, 519023612400, 3,
           806560184068174074698832731167180954220377985312830877185995654151, 1);
    ByRoot(1864388056649, 27466809099, 19, 1379468585365);
    Joint(1864388056649, 26, 19, 494);
    SmallPrime(173);
    Start(1864388056649, 48934445813);
    Climb2(1864388056649, 48934445813, 1, 48934445813, 0, 1284378527, 1070198054946);
    Climb4(1864388056649, 48934445813, 2, 1070198054946, 2, 1684805089002321639803138195421760984573191358360153228728,
           1522624608792);
    Climb4(1864388056649, 48934445813, 10, 1522624608792, 3,
           337815124029154138659596218676701861795999673992312970808365821604051, 146528518613);
    Climb4(1864388056649, 48934445813, 43, 146528518613, 1, 12099488133142809455881628439023635661744708, 1);
    ByRoot(1864388056649, 48934445813, 173, 568215366798);
    Joint(1864388056649, 494, 173, 85462);
    ByDigits(1864388056649, 85462, 255, 22594);
  }

  lemma Prime7047956753329()
    ensures Prime(7047956753329)
  {
    hide Prime, Residual, Reaches;
    ResidualOdd(7047956753329);
    Prime1372265723();
    Start(7047956753329, 2666940662611);
    Climb4(7047956753329, 2666940662611, 1, 2666940662611, 1, 19142715056916652385181985730159545879094029330420,
           4637085425871);
    Climb4(7047956753329, 2666940662611, 5, 4637085425871, 0, 65602011526969322158190925161977967104, 1313350377665);
    Climb4(7047956753329, 2666940662611, 20, 1313350377665, 1, 1125829270584022397953917894773878947117790446008,
           6736397321243);
    Climb4(7047956753329, 2666940662611, 81, 6736397321243, 3,
           5542269072862154664137806231054646264434827316942818008870328809295286905086, 1614071858237);
    Climb4(7047956753329, 2666940662611, 327, 1614071858237, 0, 963004311692293794308355880734027349, 702736057740);
    Climb4(7047956753329, 2666940662611, 1308, 702736057740, 2,
           246111794761449116584124042083496669766075230622219150608620, 2384979864020);
    Climb4(7047956753329, 2666940662611, 5234, 2384979864020, 3,
           87079453649574077269253327314343483896366522270146919138766014230339670184, 2491804917464);
    Climb4(7047956753329, 2666940662611, 20939, 2491804917464, 0, 5470070499609766010461144007753872131, 6306003585517);
    Climb4(7047956753329, 2666940662611, 83756, 6306003585517, 1, 598366093104020833257912112795431832200755455276595,
           5606292704576);
    Climb4(7047956753329, 2666940662611, 335025, 5606292704576, 3,
           2658764692226841671191727237746727771774733332313710325548229573655531273582, 1781492878578);
    Climb4(7047956753329, 2666940662611, 1340103, 1781492878578, 0, 1429134593787304218336333590519385385,
           7007490046391);
    Climb4(7047956753329, 2666940662611, 5360412, 7007490046391, 3,
           6489732363623336335442762131707857713383289057891653618432180841368876269189, 1978540129910);
    Climb4(7047956753329, 2666940662611, 21441651, 1978540129910, 3,
           41243573000057762502456944945335907896675676121499366822048099699975222050, 229313205550);
    Climb4(7047956753329, 2666940662611, 85766607, 229313205550, 2,
           2790485286578916403202840872230262992125511667670130094056, 6849095137576);
    Climb4(7047956753329, 2666940662611, 343066430, 6849095137576, 3,
           5922562111878214636728297508002610148547229682028327134312172888525074117295, 1);
    ByRoot(7047956753329, 2666940662611, 1372265723, 6867683113321);
    Joint(7047956753329, 2, 1372265723, 2744531446);
    BySize(7047956753329, 2744531446);
  }

  lemma Power41113485425223749()
    ensures Reaches(41113485425223749, 24115917256720745, 7282765846, 24912209280826523)
  {
    hide Reaches;
    Start(41113485425223749, 24115917256720745);
    Climb4(41113485425223749, 24115917256720745, 1, 24115917256720745, 2,
           4784520444145257545257641418177636658120028620287082016316057605317951699309876962, 11524374905270087);
    Climb4(41113485425223749, 24115917256720745, 6, 11524374905270087, 3,
           6017229440467390756747933193746159409487050384441705040697500480018450097784114573545706042649061,
           3572501780523936);
    Climb4(41113485425223749, 24115917256720745, 27, 3572501780523936, 0,
           3961918337597285270830648802649363589303888440, 15078318324391656);
    Climb4(41113485425223749, 24115917256720745, 108, 15078318324391656, 2,
           731197848401724285713742429084054342955215670832811594401950065965148938012671099, 29338966017772249);
    Climb4(41113485425223749, 24115917256720745, 434, 29338966017772249, 0,
           18021665331334327770055080457841008795551456726812, 11578527725577813);
    Climb4(41113485425223749, 24115917256720745, 1736, 11578527725577813, 1,
           10542238784496848933245778588827448537407024200230452465883415004, 6215283277935949);
    Climb4(41113485425223749, 24115917256720745, 6945, 6215283277935949, 1,
           875312638696065152810743600124327905429048187573107746855389763, 24463707760433258);
    Climb4(41113485425223749, 24115917256720745, 27781, 24463707760433258, 2,
           5066550719528040973488019213368908724358223480365781055755899844135790319850387925, 2980755598001575);
    Climb4(41113485425223749, 24115917256720745, 111126, 2980755598001575, 0,
           1920088192913502456088458534219925907672282968, 40065771458583593);
    Climb4(41113485425223749, 24115917256720745, 444504, 40065771458583593, 3,
           879065218692381529019788013159143835406992891569691386503304467453763707140019817045643720545685215,
           23684374733422590);
    Climb4(41113485425223749, 24115917256720745, 1778019, 23684374733422590, 0,
           7653558383406900287706265137650218639935050582355, 26366442699261105);
    Climb4(41113485425223749, 24115917256720745, 7112076, 26366442699261105, 0,
           11754979143433806751255699544593169216761370247433, 40030856814164308);
    Climb4(41113485425223749, 24115917256720745, 28448304, 40030856814164308, 0,
           62459031705566511866858192018342146449730525354562, 35291569208757558);
    Climb4(41113485425223749, 24115917256720745, 113793216, 35291569208757558, 1,
           909920325761368933184542357721285058067640855802669075166195474226, 21256884674516246);
    Climb4(41113485425223749, 24115917256720745, 455172865, 21256884674516246, 1,
           119761700673656610045275761437282062071893657761228582779579910884, 7573747257176604);
    Climb4(41113485425223749, 24115917256720745, 1820691461, 7573747257176604, 2,
           46544300428228203750971191006821567057302776592319625492184891496913717771283873, 24912209280826523);
  }

  lemma Prime41113485425223749()
    ensures Prime(41113485425223749)
  {
    hide Prime, Residual, Reaches;
    ResidualOdd(41113485425223749);
    Prime1864388056649();
    Power41113485425223749();
    Climb4(41113485425223749, 24115917256720745, 7282765846, 24912209280826523, 1,
           225927170701892633568363935247429647798221222378521058216850593410, 8048615928597455);
    Climb4(41113485425223749, 24115917256720745, 29131063385, 8048615928597455, 0,
           102070565123662731845427926247024133519443056633, 2425588649273508);
    Climb4(41113485425223749, 24115917256720745, 116524253540, 2425588649273508, 2,
           489656902327294653643979385068239013104621662987750137562477438611949106875762, 6917274250510662);
    Climb4(41113485425223749, 24115917256720745, 466097014162, 6917274250510662, 1,
           1342948836993094722661020771720885906579360401620986740758356931, 1);
    ByRoot(41113485425223749, 24115917256720745, 1864388056649, 2914045441414645);
    Joint(41113485425223749, 2, 1864388056649, 3728776113298);
    BySize(41113485425223749, 3728776113298);
  }

  lemma Prime768614336404564651()
    ensures Prime(768614336404564651)
  {
    hide Prime, Residual, Reaches;
    ResidualOdd(768614336404564651);
    SmallPrime(7);
    Start(768614336404564651, 3782361620868430);
    Climb4(768614336404564651, 3782361620868430, 1, 3782361620868430, 3,
           14408967318536989741403485574047779467674872337496409280860768232979759134925382170970817149, 1);
    ByRoot(768614336404564651, 3782361620868430, 7, 742411038769274727);
    Joint(768614336404564651, 2, 7, 14);
    SmallPrime(61);
    Start(768614336404564651, 4);
    Climb2(768614336404564651, 4, 1, 4, 1, 0, 64);
    Climb4(768614336404564651, 4, 3, 64, 3, 0, 1073741824);
    Climb4(768614336404564651, 4, 15, 1073741824, 1, 6917529027641081853, 1);
    ByRoot(768614336404564651, 4, 61, 512409557603043101);
    Joint(768614336404564651, 14, 61, 854);
    SmallPrime(1321);
    Start(768614336404564651, 101409818469512);
    Climb4(768614336404564651, 101409818469512, 1, 101409818469512, 1,
           13953769533836847158088068608282745845552562023806319, 189146252500179163);
    Climb4(768614336404564651, 101409818469512, 5, 189146252500179163, 0,
           1665261662466871612571765363979279363837725580938682, 10634001359033779);
    Climb4(768614336404564651, 101409818469512, 20, 10634001359033779, 2,
           171095416666808015443239472293799849985432271679561559711511319797068978174, 313886068363639190);
    Climb4(768614336404564651, 101409818469512, 82, 313886068363639190, 2,
           129879225683064188876731471739070432883786538982809576664991674319773718948758743, 551654358073246307);
    Climb4(768614336404564651, 101409818469512, 330, 551654358073246307, 1,
           12219114610803868055135917486728636348337627846764319732257093187861, 1);
    ByRoot(768614336404564651, 101409818469512, 1321, 378225345988451638);
    Joint(768614336404564651, 854, 1321, 1128134);
    ByDigits(768614336404564651, 1128134, 603930, 785355);
  }

  lemma Power5519485418336288303251()
    ensures Reaches(5519485418336288303251, 4429387081648777105789, 2450554694, 2034038852231270622587)
  {
    hide Reaches;
    Start(5519485418336288303251, 4429387081648777105789);
    Climb2(5519485418336288303251, 4429387081648777105789, 1, 4429387081648777105789, 0, 3554583159853853188219,
           2235276471327044712552);
    Climb4(5519485418336288303251, 4429387081648777105789, 2, 2235276471327044712552, 1,
           20034108951427027906071779157574718533590417405013336455057520869474003695314153706225,
           2426993941793745307549);
    Climb4(5519485418336288303251, 4429387081648777105789, 9, 2426993941793745307549, 0,
           6286026082425292893560822704064354109428915445259509938051173355, 611436615681460457696);
    Climb4(5519485418336288303251, 4429387081648777105789, 36, 611436615681460457696, 2,
           496814714386619585719487643896388412640510431005772816564674673314855047561945297325939466680741931680507,
           3199132520227650621919);
    Climb4(5519485418336288303251, 4429387081648777105789, 146, 3199132520227650621919, 0,
           18977121231238914486008292100233110554174164304231745575883978450, 2582681594040812897771);
    Climb4(5519485418336288303251, 4429387081648777105789, 584, 2582681594040812897771, 1,
           35704956987237184483855791687096168905835792532604971198776422488977673299170902380308,
           3022167749806149833201);
    Climb4(5519485418336288303251, 4429387081648777105789, 2337, 3022167749806149833201, 0,
           15113869810712836266615482957003579284680146717366944874704121532, 5268490400517830072269);
    Climb4(5519485418336288303251, 4429387081648777105789, 9348, 5268490400517830072269, 0,
           139587388415831782532938659712244768695052057873355135061515548480, 660226098175779397841);
    Climb4(5519485418336288303251, 4429387081648777105789, 37392, 660226098175779397841, 1,
           152481022246930028548156264773143437262490867350970582968047723983772428375248317371,
           1051710132737795830108);
    Climb4(5519485418336288303251, 4429387081648777105789, 149569, 1051710132737795830108, 3,
           19262672743405075199338774692521316032740962522142158912732242658207319763845352634801384104669014491696440923210060112256075681,
           3006810995783820458893);
    Climb4(5519485418336288303251, 4429387081648777105789, 598279, 3006810995783820458893, 3,
           1286935653560438944782799323673867241777159806594370590036743132051206670536275401977324689076352113877425554906076724454842417505,
           506906672572097955714);
    Climb4(5519485418336288303251, 4429387081648777105789, 2393119, 506906672572097955714, 3,
           1039547517920654430428337929498791976708100022806096333291643465356018866962011424000391397867237538210130405601442783557766891,
           1501757314699724352863);
    Climb4(5519485418336288303251, 4429387081648777105789, 9572479, 1501757314699724352863, 1,
           4081728071374560246391085947037207907642732364445786103880439043370202671112525823207,
           1331358381788833814872);
    Climb4(5519485418336288303251, 4429387081648777105789, 38289917, 1331358381788833814872, 0,
           569221528112719056238209763352831633862025330474235156627431262, 939764048822875282694);
    Climb4(5519485418336288303251, 4429387081648777105789, 153159668, 939764048822875282694, 1,
           625922194902716968026001713025556621716392363747325808885349660800142649170958931950,
           3342995909855887833894);
    Climb4(5519485418336288303251, 4429387081648777105789, 612638673, 3342995909855887833894, 2,
           443947955196906014290485528048413377622442552197523497548504794294835932793185292700382173815186610535076279,
           2034038852231270622587);
  }

  lemma Prime5519485418336288303251()
    ensures Prime(5519485418336288303251)
  {
    hide Prime, Residual, Reaches;
    ResidualOdd(5519485418336288303251);
    Prime41113485425223749();
    Power5519485418336288303251();
    Climb4(5519485418336288303251, 4429387081648777105789, 2450554694, 2034038852231270622587, 0,
           3101261489197446236456868866170760702199502854349187125052239501, 5319709061374838342010);
    Climb4(5519485418336288303251, 4429387081648777105789, 9802218776, 5319709061374838342010, 3,
           12609092712798091608807353852768446004790349241207387113297726417610999239890609043498347786318231683353273361714014786488487122601,
           1578335198143328814149);
    Climb4(5519485418336288303251, 4429387081648777105789, 39208875107, 1578335198143328814149, 3,
           97707810334649689662787845863186554115811422691164730643017384411908723365257709478292535436295963310539870715222274380831898933,
           1005394743626668712486);
    Climb4(5519485418336288303251, 4429387081648777105789, 156835500431, 1005394743626668712486, 3,
           16087136805125010433902883374888012949334998609764909725251197029569667721877373025407601650109441191955641792099764596092753025,
           61258932171291610429);
    Climb4(5519485418336288303251, 4429387081648777105789, 627342001727, 61258932171291610429, 2,
           50057178619931728123619050205250250713838997592821492906108180610704181691875326759273782839834414713,
           4731232838940151423838);
    Climb4(5519485418336288303251, 4429387081648777105789, 2509368006910, 4731232838940151423838, 2,
           1781090410443917123266728133300923507870260709832810445941146345107293697945915346712950558225849496444786572,
           2456951496769322704684);
    Climb4(5519485418336288303251, 4429387081648777105789, 10037472027642, 2456951496769322704684, 2,
           129531385624055197573442585594930548460337351317549688153783145655504426623576016781937245202610448223356791,
           2712145657374828287915);
    Climb4(5519485418336288303251, 4429387081648777105789, 40149888110570, 2712145657374828287915, 0,
           9802874645159108132780397221638407126372023864627747739223152570, 4427909119632580195555);
    Climb4(5519485418336288303251, 4429387081648777105789, 160599552442280, 4427909119632580195555, 1,
           308489110969474771820954412745712139193859041268473231181412645640040075223670407773550,
           2660811270787403407075);
    Climb4(5519485418336288303251, 4429387081648777105789, 642398209769121, 2660811270787403407075, 0,
           9081502265033828361976809913879105345561072502049837842350610501, 4526865192477821101874);
    Climb4(5519485418336288303251, 4429387081648777105789, 2569592839076484, 4526865192477821101874, 1,
           337004182545199991318757005628551736043923310876111929403919519628259676387324788787712,
           4197930048549354495952);
    Climb4(5519485418336288303251, 4429387081648777105789, 10278371356305937, 4197930048549354495952, 1,
           249221688701910423425995935556554613308212778265312073294758824981595285315126601615973, 1);
    ByRoot(5519485418336288303251, 4429387081648777105789, 41113485425223749, 5314546487471930663725);
    Joint(5519485418336288303251, 2, 41113485425223749, 82226970850447498);
    BySize(5519485418336288303251, 82226970850447498);
  }

  lemma Prime506256324715258822390969()
    ensures Prime(506256324715258822390969)
  {
    hide Prime, Residual, Reaches;
    ResidualOdd(506256324715258822390969);
    Prime684610721();
    Start(506256324715258822390969, 301771145444586379546440);
    Climb2(506256324715258822390969, 301771145444586379546440, 1, 301771145444586379546440, 0, 179880862276944777659794,
           374517004207200576673214);
    Climb4(506256324715258822390969, 301771145444586379546440, 2, 374517004207200576673214, 2,
           3538923085267888668290395011849569815611051773690837814507644201235568973630061539255647862761920710666715682058954669,
           227120144232937530553339);
    Climb4(506256324715258822390969, 301771145444586379546440, 10, 227120144232937530553339, 0,
           5255961306052663177048675744407524272160389836495437448428981924095662, 160840501273261680387763);
    Climb4(506256324715258822390969, 301771145444586379546440, 40, 160840501273261680387763, 3,
           36328238814908959270839980683253945700339870650500207713754959118182668332585998093651916990934475792954769359638501257025225676592342607673,
           412541276830368447718863);
    Climb4(506256324715258822390969, 301771145444586379546440, 163, 412541276830368447718863, 0,
           57213586343874982667750550505387859511389085013049374945238468374901841, 16392695659169731173432);
    Climb4(506256324715258822390969, 301771145444586379546440, 652, 16392695659169731173432, 3,
           3919802414426333708340782405882965004644365669837940327797667284677409741004628197176793747522467031048817961373269704687408495207627310,
           129963989889681436220610);
    Climb4(506256324715258822390969, 301771145444586379546440, 2611, 129963989889681436220610, 2,
           51318872191807959194657222508980503993806248079698401920040492966130717254807392298505293772109849944082722693695710,
           465202921639067837957010);
    Climb4(506256324715258822390969, 301771145444586379546440, 10446, 465202921639067837957010, 1,
           27917529501622647036420684329328794525422290914100246693297439590059973578100268512640409015236,
           217721849684539514596316);
    Climb4(506256324715258822390969, 301771145444586379546440, 41785, 217721849684539514596316, 1,
           1339415469417763079874097950416056381849972609431892180833221483113838379393898410867989093124,
           90236848296461473542684);
    Climb4(506256324715258822390969, 301771145444586379546440, 167141, 90236848296461473542684, 1,
           39522364809141358570829848882884811834423393450991786584601043249238644241181902451184906804,
           495398001962469077446764);
    Climb4(506256324715258822390969, 301771145444586379546440, 668565, 495398001962469077446764, 0,
           118972487142279257638025164300658924232170216714560072011021502465761468, 57613267803355716933924);
    Climb4(506256324715258822390969, 301771145444586379546440, 2674260, 57613267803355716933924, 2,
           1981869237107342632198660168580653231742702916596705341251033298377732477748863770226219845301432532019770324987528,
           406698948726989583318968);
    Climb4(506256324715258822390969, 301771145444586379546440, 10697042, 406698948726989583318968, 2,
           4921269627984472117859514802079101488403711869115700514998975251137408599839804989465844894865255598137544018789243293,
           490642763386147784972683);
    Climb4(506256324715258822390969, 301771145444586379546440, 42788170, 490642763386147784972683, 0,
           114469853997528917877517216093624800015881128314174069457407610208721794, 66698585165528086364735);
    Climb4(506256324715258822390969, 301771145444586379546440, 171152680, 66698585165528086364735, 1,
           11797058575451499020172269449155294019913572520385264482642842515333203091546642016517839871, 1);
    ByRoot(506256324715258822390969, 301771145444586379546440, 684610721, 433326728283884925555409);
    Joint(506256324715258822390969, 2, 684610721, 1369221442);
    ByDigits(506256324715258822390969, 1369221442, 270036, 1202608692);
  }

  lemma Root35408198551781170063534027037of7()
    ensures Residual(35408198551781170063534027037, 7) && Prime(7)
  {
    hide Prime, Residual, Reaches;
    SmallPrime(7);
    Start(35408198551781170063534027037, 3909967372195557157949770770);
    Climb4(35408198551781170063534027037, 3909967372195557157949770770, 1, 3909967372195557157949770770, 3,
           394555499666012433989353605156965923252985413805057594631336016517227005165477871234114746823775200438657741830889774258602599241258604265373915384828295744295710027,
           1);
    ByRoot(35408198551781170063534027037, 3909967372195557157949770770, 7, 15446832477989530583594992759);
  }

  lemma Root35408198551781170063534027037of1868721737()
    ensures Residual(35408198551781170063534027037, 1868721737) && Prime(1868721737)
  {
    hide Prime, Residual, Reaches;
    Prime1868721737();
    Start(35408198551781170063534027037, 33058582675068719822747034118);
    Climb4(35408198551781170063534027037, 33058582675068719822747034118, 1, 33058582675068719822747034118, 2,
           36863922851736912128374510333047664734124213718405737818188590700983072271672140512784051140936967429141901883477188469470619550086202551801842,
           28693468487833593774299622870);
    Climb4(35408198551781170063534027037, 33058582675068719822747034118, 6, 28693468487833593774299622870, 3,
           691641518073918025589717297068131646762603205077736308658328819424336351020882960371631819698401711341418772946147402404117931034248792622176118100630641420820235137516629,
           34877928622398903091358421727);
    Climb4(35408198551781170063534027037, 33058582675068719822747034118, 27, 34877928622398903091358421727, 3,
           1509911860466332251926448154248784728148513299147117374463417624868914292926381258421476618166281213907040385560848312617991987319082051574910845069532001409098322468915085,
           13470057574207033260205804767);
    Climb4(35408198551781170063534027037, 33058582675068719822747034118, 111, 13470057574207033260205804767, 1,
           30736768502126598533001343765212886698973103233389455256749616138121315232774188320340237347480625397201082189298,
           27552681068747768760065015452);
    Climb4(35408198551781170063534027037, 33058582675068719822747034118, 445, 27552681068747768760065015452, 2,
           17787711983530329257765238638317596838749298877221811082729566232942876700314509516837368229398721817302308495155654197905509840446876889400998,
           30984870309167835243207089458);
    Climb4(35408198551781170063534027037, 33058582675068719822747034118, 1782, 30984870309167835243207089458, 0,
           26031242556021410680995474777998635030538635577233534170738996407943447766218213245011,
           18316012557544703408222245289);
    Climb4(35408198551781170063534027037, 33058582675068719822747034118, 7128, 18316012557544703408222245289, 2,
           3473668406356983011444604446009622314550563032434799075271727518602170472875280935084436516643538451860285454144883881856057171019603061836374,
           58929523667218953484028646);
    Climb4(35408198551781170063534027037, 33058582675068719822747034118, 28514, 58929523667218953484028646, 1,
           11259318923838701417431088804006012401052065473986946821773682085469211691493259147583491161310052081034,
           34655633735834673976005538750);
    Climb4(35408198551781170063534027037, 33058582675068719822747034118, 114057, 34655633735834673976005538750, 2,
           44520497467103468380951186457539740049707061400743589333517413603887965958793233480462404877669030476189759777849195245028869184400764141886532,
           9820724901915443862350834316);
    Climb4(35408198551781170063534027037, 33058582675068719822747034118, 456230, 9820724901915443862350834316, 3,
           9491241880222042997014312748915259673246031620740985097188879648845090341875594944064045295531206598652940489996648072262095393372489423952106504885889825294527056790165,
           9141131695380817141918140447);
    Climb4(35408198551781170063534027037, 33058582675068719822747034118, 1824923, 9141131695380817141918140447, 2,
           215508543388875104350226672226335709915100223784544863281255126020856605928112533460955799836350837544276411803255143460798094538357777590707,
           26642239745173521787897080285);
    Climb4(35408198551781170063534027037, 33058582675068719822747034118, 7299694, 26642239745173521787897080285, 1,
           470395681939872477666167088194685858488730644278334792804692173535178885873617777388054536937452770969011390568655,
           4535582197297261366786598515);
    Climb4(35408198551781170063534027037, 33058582675068719822747034118, 29198777, 4535582197297261366786598515, 0,
           11951662919998153602261727883264902830086797707852405178049616240281759650086426598,
           33500679107893302888069370499);
    Climb4(35408198551781170063534027037, 33058582675068719822747034118, 116795108, 33500679107893302888069370499, 2,
           38875776072393700645548054534290287001705300112271006337716143444790580764788811960179050098374009736718503376959168521244189117615071979409654,
           31818008841701767783459854726);
    Climb4(35408198551781170063534027037, 33058582675068719822747034118, 467180434, 31818008841701767783459854726, 1,
           956912859528189468777192880358935347548602381415844284640737118420576088068107816914408828353465713000092124139691,
           1);
    ByRoot(35408198551781170063534027037, 33058582675068719822747034118, 1868721737, 10608574628400158437335838396);
  }

  lemma Prime35408198551781170063534027037()
    ensures Prime(35408198551781170063534027037)
  {
    hide Prime, Residual, Reaches;
    ResidualOdd(35408198551781170063534027037);
    Root35408198551781170063534027037of7();
    Joint(35408198551781170063534027037, 2, 7, 14);
    Root35408198551781170063534027037of1868721737();
    Joint(35408198551781170063534027037, 14, 1868721737, 26162104318);
    ByDigits(35408198551781170063534027037, 26162104318, 51731906, 18991528694);
  }

  lemma Root56713727820156410577229101238628035243of19()
    ensures Residual(56713727820156410577229101238628035243, 19) && Prime(19)
  {
    hide Prime, Residual, Reaches;
    SmallPrime(19);
    Start(56713727820156410577229101238628035243, 1594000074541868406347231702013459318);
    Climb4(56713727820156410577229101238628035243, 1594000074541868406347231702013459318, 1,
           1594000074541868406347231702013459318, 0,
           113832206674439583115273485612115987138672115790500883880835225375168445260557101281105892144519468983586964,
           51292336368691302725241890676451843124);
    Climb4(56713727820156410577229101238628035243, 1594000074541868406347231702013459318, 4,
           51292336368691302725241890676451843124, 3,
           494295599470467083157834533748087945010146027930388189663634828991137818455088273323892804712233838414249250854226497044162406520654863030305329859890711526009826870238151465239364555829052882801619092573961367721343109117,
           1);
    ByRoot(56713727820156410577229101238628035243, 1594000074541868406347231702013459318, 19,
           14246980803999942375105710388029951411);
  }

  lemma Root56713727820156410577229101238628035243of43()
    ensures Residual(56713727820156410577229101238628035243, 43) && Prime(43)
  {
    hide Prime, Residual, Reaches;
    SmallPrime(43);
    Start(56713727820156410577229101238628035243, 97320937627379800602792043275316246);
    Climb2(56713727820156410577229101238628035243, 97320937627379800602792043275316246, 1,
           97320937627379800602792043275316246, 0, 167003039029752646066592654553541,
           32657782031720386928778291885133087053);
    Climb4(56713727820156410577229101238628035243, 97320937627379800602792043275316246, 2,
           32657782031720386928778291885133087053, 2,
           189963918144728337170606103196143857190855399534293649274302884140798147203655278791335270485131379061248580176990483177714814286431161677927367205161589185235846550726189130990587166,
           49640923801655081481388787441544024858);
    Climb4(56713727820156410577229101238628035243, 97320937627379800602792043275316246, 10,
           49640923801655081481388787441544024858, 3,
           98693847209021146574191209916317339917930166882682056247298080536415468696444224257826207039402714070421141645463766414929882780427861298490716628637036544504947737965826404648158128086260510632007563927635652974761085,
           1);
    ByRoot(56713727820156410577229101238628035243, 97320937627379800602792043275316246, 43,
           7012838798850067253726432511592036471);
  }

  lemma Root56713727820156410577229101238628035243of127()
    ensures Residual(56713727820156410577229101238628035243, 127) && Prime(127)
  {
    hide Prime, Residual, Reaches;
    SmallPrime(127);
    Start(56713727820156410577229101238628035243, 4);
    Climb4(56713727820156410577229101238628035243, 4, 1, 4, 3, 0, 16384);
    Climb4(56713727820156410577229101238628035243, 4, 7, 16384, 3, 0, 4611686018427387904);
    Climb4(56713727820156410577229101238628035243, 4, 31, 4611686018427387904, 3,
           510423550381407695195061911147652317181, 1);
    ByRoot(56713727820156410577229101238628035243, 4, 127, 37809151880104273718152734159085356829);
  }

  lemma Root56713727820156410577229101238628035243of337()
    ensures Residual(56713727820156410577229101238628035243, 337) && Prime(337)
  {
    hide Prime, Residual, Reaches;
    SmallPrime(337);
    Start(56713727820156410577229101238628035243, 296029371220959363513075133356324071);
    Climb4(56713727820156410577229101238628035243, 296029371220959363513075133356324071, 1,
           296029371220959363513075133356324071, 1,
           40085362826828256720452718115130256325049617509781044519887843881537069527206080112662096610718812603236012470691247830612422062100700300855,
           19667757644167934395472274589624416586);
    Climb4(56713727820156410577229101238628035243, 296029371220959363513075133356324071, 5,
           19667757644167934395472274589624416586, 1,
           781026914929020975052601433662316333193571644594575969997404601987674711173337700344705185225109911542907901149559599829548477636302886859506925016,
           42198741724525895978691694908043819048);
    Climb4(56713727820156410577229101238628035243, 296029371220959363513075133356324071, 21,
           42198741724525895978691694908043819048, 0,
           55912615860429915968803424714576720807776119687443389419906050744883073620300236051852524683299418411989403522288,
           10623654897932525742681953382992704432);
    Climb4(56713727820156410577229101238628035243, 296029371220959363513075133356324071, 84,
           10623654897932525742681953382992704432, 1,
           66487870908730731667697291564808652426840424825638262327613330162483971126096349103232639695948734122538309345428073112819311789080315099441594365,
           1);
    ByRoot(56713727820156410577229101238628035243, 296029371220959363513075133356324071, 337,
           41248608956225216498874013386252180195);
  }

  lemma Root56713727820156410577229101238628035243of92737()
    ensures Residual(56713727820156410577229101238628035243, 92737) && Prime(92737)
  {
    hide Prime, Residual, Reaches;
    Prime92737();
    Start(56713727820156410577229101238628035243, 25499935037649012188329682365827475352);
    Climb4(56713727820156410577229101238628035243, 25499935037649012188329682365827475352, 1,
           25499935037649012188329682365827475352, 1,
           190110969077705599208277445106218965247052122372744532317034032406613514306091233688339750515717643540170017078957443055745629762954937544381182008039,
           32607296965965209157548847582021509555);
    Climb4(56713727820156410577229101238628035243, 25499935037649012188329682365827475352, 5,
           32607296965965209157548847582021509555, 2,
           12961317479970612488076847261434629324554687096312533746207139347610628744134910785117203982387320586024458882351576122805566506925351770013790888294779074565271268949768675465313939948504,
           49801381124423068026251373548770913528);
    Climb4(56713727820156410577229101238628035243, 25499935037649012188329682365827475352, 22,
           49801381124423068026251373548770913528, 2,
           70527014786771499332227567735961830636113182881351156986117554430633810445974285678094680628126281686305458435515200324017160919373276844930618269972983491797559429023383813018643264030550,
           6604714395332682615948753140381695374);
    Climb4(56713727820156410577229101238628035243, 25499935037649012188329682365827475352, 90,
           6604714395332682615948753140381695374, 2,
           21817557183552007739032647048412219009263529128549292899126380755728028828811572522862427784456051134420695566511765373518924232943492585155213084787817241560750861586042036583169559364,
           52571071751110819523185550484138882452);
    Climb4(56713727820156410577229101238628035243, 25499935037649012188329682365827475352, 362,
           52571071751110819523185550484138882452, 1,
           3434299789298481402172281166134478360366111396659793134416902086402768936410591876529306503677031886812363529039285120513125408499370914738183230870885,
           16341139882511038767145505362072042377);
    Climb4(56713727820156410577229101238628035243, 25499935037649012188329682365827475352, 1449,
           16341139882511038767145505362072042377, 0,
           1257306601776296363319240426697490680670280483552863712691225828297273551645143352672237399210394783010570109127,
           56612091417004275701394186273611033780);
    Climb4(56713727820156410577229101238628035243, 25499935037649012188329682365827475352, 5796,
           56612091417004275701394186273611033780, 0,
           181112573873831385260166116533689085634386090575096582421700488242790982518423370135778384623170339485493832705306,
           50021744656032617212519775318413460642);
    Climb4(56713727820156410577229101238628035243, 25499935037649012188329682365827475352, 23184,
           50021744656032617212519775318413460642, 1,
           2815050688594829754820173387534227786634063021526249585774957336635930578904694237118305167291926413395476066547002489177277091567731029914563870067837,
           1);
    ByRoot(56713727820156410577229101238628035243, 25499935037649012188329682365827475352, 92737,
           4716412399517861578269835877974414216);
  }

  lemma Prime56713727820156410577229101238628035243()
    ensures Prime(56713727820156410577229101238628035243)
  {
    hide Prime, Residual, Reaches;
    ResidualOdd(56713727820156410577229101238628035243);
    Root56713727820156410577229101238628035243of19();
    Joint(56713727820156410577229101238628035243, 2, 19, 38);
    Root56713727820156410577229101238628035243of43();
    Joint(56713727820156410577229101238628035243, 38, 43, 1634);
    Root56713727820156410577229101238628035243of127();
    Joint(56713727820156410577229101238628035243, 1634, 127, 207518);
    Root56713727820156410577229101238628035243of337();
    Joint(56713727820156410577229101238628035243, 207518, 337, 69933566);
    Root56713727820156410577229101238628035243of92737();
    Joint(56713727820156410577229101238628035243, 69933566, 92737, 6485429110142);
    ByDigits(56713727820156410577229101238628035243, 6485429110142, 1348375216412, 6032300128547);
  }
}
