/** The coefficient tables of erfl and erfcl (Q/erfl.c), lowest degree first.
    Each table is written as its constant term followed by the remaining
    coefficients: kept apart like this, the verifier treats the table as a
    value to index rather than a literal to expand, so a polynomial over it
    is never multiplied out symbolically. */
module ErfTables {

  /** erf(x) = x + x·P(x²) on [0, 0.84375]: 21 coefficients */
  const P: seq<real> := [1.283791670955125738961589031215451715556e-1] + [
    -3.761263890318375246320529677071815594603e-1,
    1.128379167095512573896158903121205899135e-1,
    -2.686617064513125175943235483344625046092e-2,
    5.223977625442187842111846652980454568389e-3,
    -8.548327023450852832546626271083862724358e-4,
    1.205533298178966425102164715902231976672e-4,
    -1.492565035840625097674944905027897838996e-5,
    1.646211436588924733604648849172936692024e-6,
    -1.636584469123491976815834704799733514987e-7,
    1.480719281587897445302529007144770739305e-8,
    -1.229055530170782843046467986464722047175e-9,
    9.422759064320307357553954945760654341633e-11,
    -6.711366846653439036162105104991433380926e-12,
    4.463224090341893165100275380693843116240e-13,
    -2.783513452582658245422635662559779162312e-14,
    1.634227412586960195251346878863754661546e-15,
    -9.060782672889577722765711455623117802795e-17,
    4.741341801266246873412159213893613602354e-18,
    -2.272417596497826188374846636534317381203e-19,
    8.069088733716068462496835658928566920933e-21
  ]

  /** numerator of the rational part of erf on (0.84375, 1.25], in s = x - 1 */
  const P1: seq<real> := [-2.362118560752659955654364917390741930316e-3] + [
    4.129623379624420034078926610650759979146e-1,
    -3.973857505403547283109417923182669976904e-2,
    4.357503184084022439763567513078036755183e-2,
    8.015593623388421371247676683754171456950e-2,
    -1.034459310403352486685467221776778474602e-2,
    5.671850295381046679675355719017720821383e-3,
    1.219262563232763998351452194968781174318e-3,
    5.390833481581033423020320734201065475098e-4,
    -1.978853912815115495053119023517805528300e-4,
    6.184234513953600118335017885706420552487e-5,
    -5.331802711697810861017518515816271808286e-6
  ]

  /** denominator of that rational part, without its hidden constant term 1 */
  const Q1: seq<real> := [9.081506296064882195280178373107623196655e-1] + [
    6.821049531968204097604392183650687642520e-1,
    4.067869178233539502315055970743271822838e-1,
    1.702332233546316765818144723063881095577e-1,
    7.498098377690553934266423088708614219356e-2,
    2.050154396918178697056927234366372760310e-2,
    7.012988534031999899054782333851905939379e-3,
    1.149904787014400354649843451234570731076e-3,
    3.185620255011299476196039491205159718620e-4,
    1.273405072153008775426376193374105840517e-5,
    4.753866999959432971956781228148402971454e-6,
    -1.002287602111660026053981728549540200683e-6
  ]

  /** numerator of the rational part of erf on (1.25, 1.75], in s = x - 1.5 */
  const P2: seq<real> := [1.131926304864446730135126164594785863512e-2] + [
    1.273617996967754151544330055186210322832e-1,
    -8.169980734667512519897816907190281143423e-2,
    9.512267486090321197833634271787944271746e-2,
    -2.394251569804872160005274999735914368170e-2,
    1.108768660227528667525252333184520222905e-2,
    3.527435492933902414662043314373277494221e-4,
    4.946116273341953463584319006669474625971e-4,
    -4.289851942513144714600285769022420962418e-5,
    8.304719841341952705874781636002085119978e-5,
    -1.040460226177309338781902252282849903189e-5,
    2.122913331584921470381327583672044434087e-6
  ]

  /** denominator of that rational part, without its hidden constant term 1 */
  const Q2: seq<real> := [7.448815737306992749168727691042003832150e-1] + [
    7.161813850236008294484744312430122188043e-1,
    3.603134756584225766144922727405641236121e-1,
    1.955811609133766478080550795194535852653e-1,
    7.253059963716225972479693813787810711233e-2,
    2.752391253757421424212770221541238324978e-2,
    7.677654852085240257439050673446546828005e-3,
    2.141102244555509687346497060326630061069e-3,
    4.342123013830957093949563339130674364271e-4,
    8.664587895570043348530991997272212150316e-5,
    1.109201582511752087060167429397033701988e-5,
    1.357834375781831062713347000030984364311e-6,
    4.957746280594384997273090385060680016451e-8
  ]

  /** numerator of erfc(x)·x·exp(x²) on (1.75, 16/3), evaluated at x */
  const R1: seq<real> := [4.630195122654315016370705767621550602948e6] + [
    1.257949521746494830700654204488675713628e7,
    1.704153822720260272814743497376181625707e7,
    1.502600568706061872381577539537315739943e7,
    9.543710793431995284827024445387333922861e6,
    4.589344808584091011652238164935949522427e6,
    1.714660662941745791190907071920671844289e6,
    5.034802147768798894307672256192466283867e5,
    1.162286400443554670553152110447126850725e5,
    2.086643834548901681362757308058660399137e4,
    2.839793161868140305907004392890348777338e3,
    2.786687241658423601778258694498655680778e2,
    1.779177837102695602425897452623985786464e1,
    5.641895835477470769043614623819144434731e-1
  ]

  /** denominator of that ratio on (1.75, 16/3), evaluated at x */
  const S1: seq<real> := [4.630195122654331529595606896287596843110e6] + [
    1.780411093345512024324781084220509055058e7,
    3.250113097051800703707108623715776848283e7,
    3.737857099176755050912193712123489115755e7,
    3.029787497516578821459174055870781168593e7,
    1.833850619965384765005769632103205777227e7,
    8.562719999736915722210391222639186586498e6,
    3.139684562074658971315545539760008136973e6,
    9.106421313731384880027703627454366930945e5,
    2.085108342384266508613267136003194920001e5,
    3.723126272693120340730491416449539290600e4,
    5.049169878567344046145695360784436929802e3,
    4.944274532748010767670150730035392093899e2,
    3.153510608818213929982940249162268971412e1,
    1.0
  ]

  /** numerator of erfc(x)·x·exp(x²) on [16/3, 107), evaluated at x */
  const R2: seq<real> := [2.447288012254302966796326587537136931669e5] + [
    8.768592567189861896653369912716538739016e5,
    1.552293152581780065761497908005779524953e6,
    1.792075924835942935864231657504259926729e6,
    1.504001463155897344947500222052694835875e6,
    9.699485556326891411801230186016013019935e5,
    4.961449933661807969863435013364796037700e5,
    2.048726544693474028061176764716228273791e5,
    6.891532964330949722479061090551896886635e4,
    1.888014709010307507771964047905823237985e4,
    4.189692064988957745054734809642495644502e3,
    7.362346487427048068212968889642741734621e2,
    9.980359714211411423007641056580813116207e1,
    9.426910895135379181107191962193485174159,
    5.641895835477562869480794515623601280429e-1
  ]

  /** denominator of that ratio on [16/3, 107), evaluated at x */
  const S2: seq<real> := [2.447282203601902971246004716790604686880e5] + [
    1.153009852759385309367759460934808489833e6,
    2.608580649612639131548966265078663384849e6,
    3.766673917346623308850202792390569025740e6,
    3.890566255138383910789924920541335370691e6,
    3.052882073900746207613166259994150527732e6,
    1.885574519970380988460241047248519418407e6,
    9.369722034759943185851450846811445012922e5,
    3.792278350536686111444869752624492443659e5,
    1.257750606950115799965366001773094058720e5,
    3.410830600242369370645608634643620355058e4,
    7.513984469742343134851326863175067271240e3,
    1.313296320593190002554779998138695507840e3,
    1.773972700887629157006326333696896516769e2,
    1.670876451822586800422009013880457094162e1,
    1.000
  ]
}
