/** The coefficient tables of j0l, y0l, pzero and qzero (Q/j0l.c), lowest
    degree first.
    Each table is written as its constant term followed by the remaining
    coefficients: kept apart like this, the verifier treats the table as a
    value to index rather than a literal to expand, so a polynomial over it
    is never multiplied out symbolically. */
module Bessel0Tables {

  /** numerator of (j0(x) - 1)/x² for 1e-9 < x <= 1.28, in z = x² */
  const R0: seq<real> := [-2.499999999999999999999999999999998934492e-1] + [
    1.272657927360049786327618451133763714880e-2,
    -2.694499763712963276900636693400659600898e-4,
    2.724877475058977576903234070919616447883e-6,
    -1.432617103214330236967477495393076320281e-8,
    3.823248804080079168706683540513792224471e-11,
    -4.183174277567983647337568504286313665065e-14
  ]

  /** denominator of that ratio */
  const S0: seq<real> := [1.0] + [
    1.159368290559800854689526195462884666395e-2,
    6.629397597394973383009743876169946772559e-5,
    2.426779981394054406305431142501735094340e-7,
    6.097663491248511069094400469635449749883e-10,
    1.017019133340929220238747413216052224036e-12,
    9.012593179306197579518374581969371278481e-16
  ]

  /** numerator of y0(x) - (2/π)·j0(x)·log(x) for x <= 1.28, in z = x² */
  const U0: seq<real> := [-7.380429510868722527434392794848301631220e-2] + [
    1.766855559625940791857536949301981816513e-1,
    -1.386470722701047923235553251240162839408e-2,
    3.520149242724811578636970811631224862615e-4,
    -3.978599663243790049853642275624951870025e-6,
    2.228801153263957224547222556806915479763e-8,
    -6.121246764298785018658597179498837316177e-11,
    6.677103629722678833475965810525587396596e-14
  ]

  /** denominator of that ratio */
  const V0: seq<real> := [1.0] + [
    1.247164416539111311571676766127767127970e-2,
    7.829144749639791500052900281489367443576e-5,
    3.247126540422245330511218321013360336606e-7,
    9.750516724789499678567062572549568447869e-10,
    2.156713223173591212250543390258458098776e-12,
    3.322169561597890004231482431236452752624e-15,
    2.821213295314000924252226486305726805093e-18
  ]

  /** pzero, band 0 (16, 1e30]: numerator in z = 1/x² */
  const PR0: seq<real> := [9.999999999999999999999999999999999997515e-1] + [
    1.065981615377273376425365823967550598358e3,
    4.390991200927588978306374718984240719130e5,
    9.072086218607986711847069407339321363103e7,
    1.022552886177375367408408501046461671528e10,
    6.420766912243658241570635854089597269031e11,
    2.206451725126933913591080211081242266908e13,
    3.928369596816895077363705478743346298368e14,
    3.258159928874124597286701119721482876596e15,
    1.025715808134188978860679130140685101348e16,
    7.537170874795721255796001687024031280685e15,
    -1.579413901450157332307745586004207687796e14
  ]

  /** pzero, band 0 (16, 1e30]: denominator in z = 1/x² */
  const PS0: seq<real> := [1.0] + [
    1.066051927877273376425365823967550512687e3,
    4.391739647168381592399173804329266353038e5,
    9.075162261801343671805658294123888867884e7,
    1.023186118519904751819581912075985995058e10,
    6.427861860414223746340515376512730275061e11,
    2.210861503237823589735481303627993406235e13,
    3.943247335784292905915956840901818177989e14,
    3.283720976777545142150200110647270004481e15,
    1.045346918812754048903645641538728986759e16,
    8.043455468065618900750599584291193680463e15
  ]

  /** pzero, band 1 (8, 16]: numerator in z = 1/x² */
  const PR1: seq<real> := [9.999999999999999999999784422701108683618e-1] + [
    6.796098532948334207755488692777907062894e2,
    1.840036112605722168824530758797169836042e5,
    2.598490483191916637264894340635847598122e7,
    2.105774863242707025525730249472054578523e9,
    1.015822044230542426666314997796944979959e11,
    2.931557457008110436764077699944189071875e12,
    4.962885121125457633655259224179322808824e13,
    4.705424055148223269155430598563351566279e14,
    2.294439854910747229152056080910427001110e15,
    4.905531843137486691500950019322475458629e15,
    3.187543169710339218793442542845735994565e15
  ]

  /** pzero, band 1 (8, 16]: denominator in z = 1/x² */
  const PS1: seq<real> := [1.0] + [
    6.796801657948334207754571576066758180288e2,
    1.840512891201300567325421059826676366447e5,
    2.599777028312918975306252167127695075221e7,
    2.107582572771047636846811284634244892537e9,
    1.017275794694156108975782763889979940348e11,
    2.938487645192463845428059755454762316011e12,
    4.982512164735557054521042916182317924466e13,
    4.737639900153703274792677468264564361437e14,
    2.323398719123742743524249528275097100646e15,
    5.033419107069210577868909797896984419391e15,
    3.409036105931068609601317076759804716059e15,
    7.505655364352679737585745147753521662166e13,
    -9.976837153983688250780198248297109118313e12
  ]

  /** pzero, band 2 (5, 8]: numerator in z = 1/x² */
  const PR2: seq<real> := [9.999999999999999937857236789277366320220e-1] + [
    3.692848765268649571651602420376358849214e2,
    5.373022067535476576926715900057760985410e4,
    4.038738891191314969971504035057219430725e6,
    1.728285706306940523397385566659762646999e8,
    4.375400819645889911158688737206054788534e9,
    6.598950418204912408375591217782088567076e10,
    5.827182039183238492480275401520072793783e11,
    2.884222642913492390887572414999490975844e12,
    7.373278873797767721932837830628688632775e12,
    8.338295457568973761205077964397969230489e12,
    2.911383183467288345772308817209806922143e12
  ]

  /** pzero, band 2 (5, 8]: denominator in z = 1/x² */
  const PS2: seq<real> := [1.0] + [
    3.693551890268649477288896267171993213102e2,
    5.375607880998361502474715133828068514297e4,
    4.042477764024108249744998862572786367328e6,
    1.731069838737016956685839588670132939513e8,
    4.387147674049898778738226585935491417728e9,
    6.628058659620653765349556940567715258165e10,
    5.869659904164177740471685856367322160664e11,
    2.919839445622817017058977559638969436383e12,
    7.535314897696671402628203718612309253907e12,
    8.696355561452933775773309859748610658935e12,
    3.216155103141537221173601557697083216257e12,
    4.756857081068942248246880159213789086363e10,
    -3.496356619666608032231074866481472824067e9
  ]

  /** pzero, band 3 (3.5, 5]: numerator in z = 1/x² */
  const PR3: seq<real> := [9.999999999999916693107285612398196588247e-1] + [
    2.263975921282917721194425320484974336945e2,
    1.994358386744245848889492762781484199966e4,
    8.980067458430542243559962493831661323168e5,
    2.282213787521372663705567756420087553508e7,
    3.409784374889063618250288699908375135923e8,
    3.024380857401448589254343517589811711108e9,
    1.571110368046740246895071721443082286379e10,
    4.603187020243604632153685300463160593768e10,
    7.087196453409712719449549280664058793403e10,
    5.046196021776346356803687409644239065041e10,
    1.287758439080165765709154276618854799932e10,
    5.900679773415023433787846658096813590784e8
  ]

  /** pzero, band 3 (3.5, 5]: denominator in z = 1/x² */
  const PS3: seq<real> := [1.0] + [
    2.264679046282855061328604619231774747116e2,
    1.995939523988944553755653255389812103448e4,
    8.993853144706348727038389967490183236820e5,
    2.288326099634588843906989983704795468773e7,
    3.424967100255240885169240956804790118282e8,
    3.046311797972463991368023759640028910016e9,
    1.589614961932826812790222479700797224003e10,
    4.692406624527744816497089139325073939927e10,
    7.320486495902008912866462849073108323948e10,
    5.345945972828978289935309597742981360994e10,
    1.444033091910423754121309915092247171008e10,
    7.987714685115314668378957273824383610525e8
  ]

  /** pzero, band 4 (2.5, 3.5]: numerator in z = 1/x² */
  const PR4: seq<real> := [9.999999999986736677961118722747757712260e-1] + [
    1.453824980703800559037873123568378845663e2,
    8.097327216430682288267610447006508661032e3,
    2.273847252038264370231169686380192662135e5,
    3.561056728046211111354759998976985449622e6,
    3.244933588800096378434627029369680378599e7,
    1.740112392860717950376210038908476792588e8,
    5.426170187455893285197878563881579269524e8,
    9.490107486454362321004377336020526281371e8,
    8.688872439428470049801714121070005313806e8,
    3.673315853166437222811910656900123215515e8,
    5.577770470359303305164877446339693270239e7,
    1.540438642031689641308197880181291865714e6
  ]

  /** pzero, band 4 (2.5, 3.5]: denominator in z = 1/x² */
  const PS4: seq<real> := [1.0] + [
    1.454528105698159439773035951959131799816e2,
    8.107442215200392397172179900434987859618e3,
    2.279390393778242887574177096606328994140e5,
    3.576251625592252008424781111770934135844e6,
    3.267909499056932631405942058670933813863e7,
    1.760021515330805537499778238099704648805e8,
    5.525553787667353981242060222587465726729e8,
    9.769870295912820457889384082671269328511e8,
    9.110582071004774279226905629624018008454e8,
    3.981857678621955599371967680343918454345e8,
    6.482404686230769399073192961667697036706e7,
    2.210046943095878402443535460329391782298e6
  ]

  /** pzero, band 5 (1/0.5625, 2.5]: numerator in z = 1/x² */
  const PR5: seq<real> := [9.999999999114986107951817871144655880699e-1] + [
    9.252583736048588342568344570315435947614e1,
    3.218726757856078715214631502407386264637e3,
    5.554009964621111656479588505862577040831e4,
    5.269993115643664338253196944523510290175e5,
    2.874613773778430691192912190618220544575e6,
    9.133538151103658353874146919613442436035e6,
    1.673067041410338922825193013077354249193e7,
    1.706913873848398011744790289200151840498e7,
    9.067766583853288534551600235576747618679e6,
    2.216746733457884568532695355036338655872e6,
    1.945753880802872541235703812722344514405e5,
    3.132374412921948071539195638885330951749e3
  ]

  /** pzero, band 5 (1/0.5625, 2.5]: denominator in z = 1/x² */
  const PS5: seq<real> := [1.0] + [
    9.259614983862181118883831670990340052982e1,
    3.225125275462903384842124075132609290304e3,
    5.575705362829101545292760055941855246492e4,
    5.306049863037087855496170121958448492522e5,
    2.907060758873509564309729903109018597215e6,
    9.298059206584995898298257827131208539289e6,
    1.720391071006963176836108026556547062980e7,
    1.782614812922865190479394509487941920612e7,
    9.708016389605273153536452032839879950155e6,
    2.476495084688170096480215640962175140027e6,
    2.363200660365585759668077790194604917187e5,
    4.803239569848196077121203575704356936731e3
  ]

  /** pzero, band 6 [1.28, 1/0.5625]: numerator in z = 1/x² */
  const PR6: seq<real> := [9.999999969777095495998606925524322559556e-1] + [
    5.825486719466194430503283824096872219216e1,
    1.248155491637757281915184824965379905380e3,
    1.302093199842358609321338417071710477615e4,
    7.353835804186292782840961999810543016039e4,
    2.356471661113686180549195092555751341757e5,
    4.350553267429009581632987060942780847101e5,
    4.588762661876600638719159826652389418235e5,
    2.675796398548523436544221045225290128611e5,
    8.077649557108971388298292919988449940464e4,
    1.117640459221306873519068741664054573776e4,
    5.544400072396814695175787511557757885585e2,
    5.072550541191480498431289089905822910718
  ]

  /** pzero, band 6 [1.28, 1/0.5625]: denominator in z = 1/x² */
  const PS6: seq<real> := [1.0] + [
    5.832517925357165050639075848183613063291e1,
    1.252144364743592128171256104364976466898e3,
    1.310300234342216813579118022415585740772e4,
    7.434667697093812197817292154032863632923e4,
    2.398706595587719165726469002404004614711e5,
    4.472737517625103157004869372427480602511e5,
    4.786313523337761975294171429067037723611e5,
    2.851161872872731228472536061865365370192e5,
    8.891648269899148412331918021801385815586e4,
    1.297097489535351517572978123584751042287e4,
    7.096761640545975756202184143400469812618e2,
    8.378049338590233325977702401733340820351
  ]

  /** qzero, band 0 (16, 1e30]: numerator in z = 1/x² */
  const QR0: seq<real> := [-1.249999999999999999999999999999999972972e-1] + [
    -1.425179595545670577414395762503991596897e2,
    -6.312499645625970845534460257936222407219e4,
    -1.411374326457208384315121243698814446848e7,
    -1.735034212758873581410984757860787252842e9,
    -1.199777647512789489421826342485055280680e11,
    -4.596025334081655714499860409699100373644e12,
    -9.262525628201284107792924477031653399187e13,
    -8.858394728685039245344398842180662867639e14,
    -3.267527953687534887623740622709505972113e15,
    -2.664222971186311967587129347029450062019e15,
    3.442464060723987869585180095344504100204e14
  ]

  /** qzero, band 0 (16, 1e30]: denominator in z = 1/x² */
  const QS0: seq<real> := [1.0] + [
    1.140729613936536461931516610003185687881e3,
    5.056665510442299351009198186490085803580e5,
    1.132041763825642787943941650522718199115e8,
    1.394570111872581606392620678214246479767e10,
    9.677945218152264789534431079563744378421e11,
    3.731140327851536828225143058896348502096e13,
    7.612785951064869291722846681020881676410e14,
    7.476077016406764891730191004811863975940e15,
    2.951246482613592035421503427100393831709e16,
    3.108361803691811711136854587074302034901e16
  ]

  /** qzero, band 1 (8, 16]: numerator in z = 1/x² */
  const QR1: seq<real> := [-1.249999999999999999997949010383433818157e-1] + [
    -9.051215166393822640636752244895124126934e1,
    -2.620782703428148837671179031904208303947e4,
    -3.975571261553504457766177974508785790884e6,
    -3.479029330759311306270072218074074994090e8,
    -1.823955008124268573036216746186239829089e10,
    -5.765932697111801375765156029221568664435e11,
    -1.079843680798742592954002192417934779114e13,
    -1.146893630504592739082205764611581332897e14,
    -6.367016059683898464936104447282880704182e14,
    -1.583109041961213490464459111903484209098e15,
    -1.230149555764242473103128650135795639412e15
  ]

  /** qzero, band 1 (8, 16]: denominator in z = 1/x² */
  const QS1: seq<real> := [1.0] + [
    7.246831508115058112438579847778014458432e2,
    2.100854184439168518399383786306927037611e5,
    3.192636418837951507430188285940994235122e7,
    2.801558443383354674538443461124434216152e9,
    1.475026997664373739293483927250653467487e11,
    4.694486824913954608552363821799927145318e12,
    8.890350100919200250838438709601547334021e13,
    9.626844429082905144874701068760469752067e14,
    5.541110744600460773528263862687521642140e15,
    1.486500494789452556727470329232123096563e16,
    1.415840104845959400365430773732093899210e16,
    1.780866095241517418081312567239682336483e15,
    -2.359230917384889357887631544079990129494e14
  ]

  /** qzero, band 2 (5, 8]: numerator in z = 1/x² */
  const QR2: seq<real> := [-1.249999999999999531937744362527772181614e-1] + [
    -4.944373897356969774839375977239241573966e1,
    -7.728449175433465285314261650078450473909e3,
    -6.262574329612752346336901434651220705903e5,
    -2.900948220220943306027235217424380672732e7,
    -7.988719647634192770463917157562874119535e8,
    -1.318228171927181389547760026626357012375e10,
    -1.282439773983029245309263271945424928196e11,
    -7.050925570827818040186149940257918845138e11,
    -2.021751882573871990004205616874202684429e12,
    -2.592939962400668552384333900573812635658e12,
    -1.038267109518891262840601514932972850326e12
  ]

  /** qzero, band 2 (5, 8]: denominator in z = 1/x² */
  const QS2: seq<real> := [1.0] + [
    3.961358492885570003202784022894248952116e2,
    6.205788738864701882828752634586510926968e4,
    5.045715603932670286550673813011764406749e6,
    2.349248611362658323353343389430968751429e8,
    6.520244524415828635917683553721880063911e9,
    1.089111211223507719337067159886281887722e11,
    1.080406000905359867958779409414903018610e12,
    6.135645280895514703514154680623769562148e12,
    1.862433040246625874245867151368643668215e13,
    2.667780805786648888840777888702193708994e13,
    1.394401107289087774765300711809313112824e13,
    1.093247500616320375562898297156722445484e12,
    -7.228875530378928722826604216491493780775e10
  ]

  /** qzero, band 3 (3.5, 5]: numerator in z = 1/x² */
  const QR3: seq<real> := [-1.249999999999473067748420379578481661075e-1] + [
    -3.044549048635289351913574324803250977998e1,
    -2.890081140649769078496693003524681440869e3,
    -1.404922456817202235879343275330529107684e5,
    -3.862746614385573443518177403617349281869e6,
    -6.257517309110249049201133708911155047689e7,
    -6.031451330920839916987079782727323477520e8,
    -3.411542405173830611454025765755854382346e9,
    -1.089392478149726672133014498723021526099e10,
    -1.824934078420210941290140903415956782726e10,
    -1.400780278304358710423481070486939531139e10,
    -3.716484136064917363926635716743771092093e9,
    -1.397591075296425529970434890954904331580e8
  ]

  /** qzero, band 3 (3.5, 5]: denominator in z = 1/x² */
  const QS3: seq<real> := [1.0] + [
    2.441498613904962049391000187014945858042e2,
    2.326188882072370711500164222341514337043e4,
    1.137138213121231338494977104659239578165e6,
    3.152918070735662728722998452605364253517e7,
    5.172877993426507259314270488444013595108e8,
    5.083086439731669807455961078856470774115e9,
    2.961842732066434123119325521139476909941e10,
    9.912185866862440735829781856081353151390e10,
    1.793560561251622234430564181567297983598e11,
    1.577090119341228122525265108497940403073e11,
    5.509910306780166194333889999985463681636e10,
    4.761691134078874491202320181517936758141e9
  ]

  /** qzero, band 4 (2.5, 3.5]: numerator in z = 1/x² */
  const QR4: seq<real> := [-1.249999999928567734339745043490705340835e-1] + [
    -1.967201748731419063051601624435565528481e1,
    -1.186329146714562236407099740615528170707e3,
    -3.607736959222941810356301491152457934060e4,
    -6.119200717978104904932828468575194267125e5,
    -6.037847781158358226670305078652205586384e6,
    -3.503558153336140359700536720393565984740e7,
    -1.180196478268225718757218523746787309773e8,
    -2.221860232085134915841426363505169680528e8,
    -2.173372505452747585296176761701746236760e8,
    -9.649364865061237558517730539506568013963e7,
    -1.465429227847933034546039640094862650385e7,
    -3.083003197920262085170581866246663380607e5
  ]

  /** qzero, band 4 (2.5, 3.5]: denominator in z = 1/x² */
  const QS4: seq<real> := [1.0] + [
    1.579620773732259142752614142139986854055e2,
    9.581372220329138733203879503753685054968e3,
    2.939598672379108095776114131010825885308e5,
    5.052183049314542218630341818692588448168e6,
    5.083497695595206639433839326338971980149e7,
    3.036385361800553388049719014005099206516e8,
    1.067826481452753409910563785161661492137e9,
    2.145644125557118044720741775125319669272e9,
    2.324115615959719949363946673491552216799e9,
    1.223262962112070757966959855619847011146e9,
    2.569765553318495423738478585947110270709e8,
    1.354744744299227127897905787732636565504e7
  ]

  /** qzero, band 5 (1/0.5625, 2.5]: numerator in z = 1/x² */
  const QR5: seq<real> := [-1.249999995936639697637680428174576069971e-1] + [
    -1.260846055371311453485891923426489068315e1,
    -4.772398467544467480801174330290141578895e2,
    -8.939852599990298486613760833996490599724e3,
    -9.184070787149542050979542226446134243197e4,
    -5.406038945018274458362637897739280435171e5,
    -1.845896544705190261018653728678171084418e6,
    -3.613616990680809501878667570653308071547e6,
    -3.908782978135693252252557720414348623779e6,
    -2.173711022517323927109138170588442768176e6,
    -5.431253130679918485836408549007856244495e5,
    -4.591098546452684510082591587275940765959e4,
    -5.244711364168207806835520057792229646578e2
  ]

  /** qzero, band 5 (1/0.5625, 2.5]: denominator in z = 1/x² */
  const QS5: seq<real> := [1.0] + [
    1.014536210851290878350892750972474861447e2,
    3.875547510687135314064434160096139681076e3,
    7.361913122670079814955259281995617732580e4,
    7.720288944218771126581086539585529314636e5,
    4.681529554446752496404431433608306558038e6,
    1.667882621940503925455031252308367745820e7,
    3.469403153761399881888272620855305156241e7,
    4.096992047964210711867089384719947863019e7,
    2.596804755829217449311530735959560630554e7,
    7.983933774697889238154465064019410763845e6,
    9.818133816979900819087242425280757938152e5,
    3.061083930868694396013541535670745443560e4
  ]

  /** qzero, band 6 [1.28, 1/0.5625]: numerator in z = 1/x² */
  const QR6: seq<real> := [-1.249999881577289001807137282824929082771e-1] + [
    -7.998273510053110759610810594119533619282,
    -1.872481955335172543369089617771565632719e2,
    -2.122116786726300805079874003303799646812e3,
    -1.293850285839529282503178263484773478457e4,
    -4.445024742266316181033354192262529356093e4,
    -8.730161378334357767668344467356505347070e4,
    -9.706222895172078442801444972505315054736e4,
    -5.896325518259858270165531513618195321041e4,
    -1.823172034368108822276420827074668832233e4,
    -2.509304178635055926638833040337472387175e3,
    -1.156608965715779237316769828941729964099e2,
    -7.028005789650731396887346826397785210442e-1
  ]

  /** qzero, band 6 [1.28, 1/0.5625]: denominator in z = 1/x² */
  const QS6: seq<real> := [1.0] + [
    6.457211085058064845601261321277721075900e1,
    1.534005216588011210342824555136008682950e3,
    1.777217999176441782593357660462379097171e4,
    1.118372652642469468091084810263231199696e5,
    4.015242433858461813142365748386473605294e5,
    8.377081045517098645448616514388280497673e5,
    1.011495020008010352575398009604164287337e6,
    6.886722075290430568652227875200208955970e5,
    2.504735189948021472047157148613171956537e5,
    4.408138920171044846941001844352009817062e4,
    3.105572178072115145673058722853640854884e3,
    5.588294821118916113437396504573817033678e1
  ]
}
